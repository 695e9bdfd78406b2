/** The pure parts of `get_ai_band_names`: the prompt sent to the text
    generation service, and the parse of the text it answers with. The call
    itself is replaced by the `Reply` it produced. */
module SuggestionFetcher {
  import opened Strings

  /** An optional field as the prompt shows it: `'N/A'` when blank,
      otherwise the raw value. */
  function OrNA(field: string): (r: string)
    ensures !IsBlank(r)
    ensures r == field || r == "N/A"
  {
    if IsBlank(field) then "N/A" else field
  }

  /** The substituted value is never blank, and it is the raw field exactly
      when the field is not blank. */
  lemma OrNASpec(field: string)
    ensures !IsBlank(OrNA(field))
    ensures OrNA(field) == field <==> !IsBlank(field)
    ensures IsBlank(field) ==> OrNA(field) == "N/A"
  {
  }

  /** The opening instruction, up to where the city goes. */
  const Instruction: string :=
    "Generate 3 unique and creative band names based on the following information:\n    City: "

  /** The closing request for one name per line. */
  const Closing: string :=
    "\n\n    Provide only the band names, one per line. Make them sound cool and relevant to the inputs.\n    "

  /** The labels that open the pet name, colour and genre lines. */
  const PetLabel: string := "\n    Pet Name: "
  const ColorLabel: string := "\n    Favorite Color: "
  const GenreLabel: string := "\n    Preferred Genre: "

  /** The three lines between the city and the closing request, in order:
      the pet name line with the raw pet name, then the colour and genre
      lines with the values `OrNA` renders. */
  function PromptFields(petName: string, favoriteColor: string, genre: string): (r: string)
    ensures |r| == |PetLabel + petName| + |ColorLabel + OrNA(favoriteColor)| + |GenreLabel + OrNA(genre)|
    ensures r[..|PetLabel + petName|] == PetLabel + petName
    ensures r[|PetLabel + petName|..|r| - |GenreLabel + OrNA(genre)|] == ColorLabel + OrNA(favoriteColor)
    ensures r[|r| - |GenreLabel + OrNA(genre)|..] == GenreLabel + OrNA(genre)
  {
    var pet := PetLabel + petName;
    var color := ColorLabel + OrNA(favoriteColor);
    var genreLine := GenreLabel + OrNA(genre);
    ThreeParts(pet, color, genreLine);
    pet + color + genreLine
  }

  /** Where each part sits in a three-part concatenation. */
  lemma ThreeParts(x: string, y: string, z: string)
    ensures (x + y + z)[..|x|] == x
    ensures (x + y + z)[|x|..|x + y|] == y
    ensures (x + y + z)[|x + y|..] == z
  {
  }

  /** The prompt: the instruction, the raw city right after it, the three
      field lines, and the request for one name per line at the end. */
  function Prompt(city: string, petName: string, favoriteColor: string, genre: string): (r: string)
    ensures |r| == |Instruction| + |city| + |PromptFields(petName, favoriteColor, genre)| + |Closing|
    ensures r[..|Instruction|] == Instruction
    ensures r[|Instruction|..|Instruction| + |city|] == city
    ensures r[|Instruction| + |city|..|r| - |Closing|] == PromptFields(petName, favoriteColor, genre)
    ensures r[|r| - |Closing|..] == Closing
  {
    var fields := PromptFields(petName, favoriteColor, genre);
    SurroundedParts(Instruction, city, fields, Closing);
    Instruction + city + fields + Closing
  }

  /** Where each part sits in a four-part concatenation. */
  lemma SurroundedParts(a: string, x: string, m: string, c: string)
    ensures (a + x + m + c)[..|a|] == a
    ensures (a + x + m + c)[|a|..|a| + |x|] == x
    ensures (a + x + m + c)[|a + x|..|a + x + m|] == m
    ensures (a + x + m + c)[|a + x + m|..] == c
  {
  }

  /** A common prefix cancels. */
  lemma CancelPrefix(a: string, x: string, y: string)
    ensures a + x == a + y ==> x == y
  {
    if a + x == a + y {
      assert (a + x)[|a|..] == x;
      assert (a + y)[|a|..] == y;
    }
  }

  /** Prompts that agree on the city and the closing text but differ in
      their field lines differ. */
  lemma SameFields(city: string, p1: string, c1: string, g1: string, p2: string, c2: string, g2: string)
    ensures Prompt(city, p1, c1, g1) == Prompt(city, p2, c2, g2) ==> PromptFields(p1, c1, g1) == PromptFields(p2, c2, g2)
  {
  }

  /** Two prompts that differ only in the pet name are equal exactly when
      the pet names are. */
  lemma PromptPetName(city: string, petName1: string, petName2: string, favoriteColor: string, genre: string)
    ensures Prompt(city, petName1, favoriteColor, genre) == Prompt(city, petName2, favoriteColor, genre)
      <==> petName1 == petName2
  {
    SameFields(city, petName1, favoriteColor, genre, petName2, favoriteColor, genre);
    var fields1 := PromptFields(petName1, favoriteColor, genre);
    var fields2 := PromptFields(petName2, favoriteColor, genre);
    if fields1 == fields2 {
      assert PetLabel + petName1 == PetLabel + petName2;
      CancelPrefix(PetLabel, petName1, petName2);
    }
  }

  /** Two prompts that differ only in the colour are equal exactly when the
      colours render alike: all blank colours give the same prompt, and a
      given colour appears verbatim. */
  lemma PromptColor(city: string, petName: string, color1: string, color2: string, genre: string)
    ensures Prompt(city, petName, color1, genre) == Prompt(city, petName, color2, genre)
      <==> OrNA(color1) == OrNA(color2)
  {
    SameFields(city, petName, color1, genre, petName, color2, genre);
    var fields1 := PromptFields(petName, color1, genre);
    var fields2 := PromptFields(petName, color2, genre);
    if fields1 == fields2 {
      assert ColorLabel + OrNA(color1) == ColorLabel + OrNA(color2);
      CancelPrefix(ColorLabel, OrNA(color1), OrNA(color2));
    }
  }

  /** Likewise for the genre. */
  lemma PromptGenre(city: string, petName: string, favoriteColor: string, genre1: string, genre2: string)
    ensures Prompt(city, petName, favoriteColor, genre1) == Prompt(city, petName, favoriteColor, genre2)
      <==> OrNA(genre1) == OrNA(genre2)
  {
    SameFields(city, petName, favoriteColor, genre1, petName, favoriteColor, genre2);
    var fields1 := PromptFields(petName, favoriteColor, genre1);
    var fields2 := PromptFields(petName, favoriteColor, genre2);
    if fields1 == fields2 {
      assert GenreLabel + OrNA(genre1) == GenreLabel + OrNA(genre2);
      CancelPrefix(GenreLabel, OrNA(genre1), OrNA(genre2));
    }
  }

  /** `[name.strip() for name in lines if name.strip()]`. */
  function CleanLines(lines: seq<string>): (r: seq<string>)
    ensures |r| <= |lines|
  {
    if lines == [] then []
    else
      var name := Strip(lines[0]);
      (if name == [] then [] else [name]) + CleanLines(lines[1..])
  }

  /** A name that is non-empty and already stripped. */
  predicate IsCleanName(name: string) {
    name != [] && Strip(name) == name
  }

  /** Every kept name is non-empty and equal to its own strip. */
  lemma {:induction false} CleanLinesAreClean(lines: seq<string>)
    ensures forall k :: 0 <= k < |CleanLines(lines)| ==> IsCleanName(CleanLines(lines)[k])
  {
    if lines != [] {
      CleanLinesAreClean(lines[1..]);
      StripIdempotent(lines[0]);
    }
  }

  /** The filter keeps source order: cleaning a concatenation cleans each
      part. */
  lemma {:induction false} CleanLinesAppend(a: seq<string>, b: seq<string>)
    ensures CleanLines(a + b) == CleanLines(a) + CleanLines(b)
  {
    if a != [] {
      assert (a + b)[0] == a[0];
      assert (a + b)[1..] == a[1..] + b;
      CleanLinesAppend(a[1..], b);
    } else {
      assert a + b == b;
    }
  }

  /** A name is kept exactly when some line strips to it and it is not
      empty. */
  lemma {:induction false} CleanLinesMembership(lines: seq<string>, x: string)
    ensures x in CleanLines(lines) <==> x != [] && exists j :: 0 <= j < |lines| && Strip(lines[j]) == x
  {
    if lines != [] {
      CleanLinesMembership(lines[1..], x);
      if x != [] && Strip(lines[0]) != x && (exists j :: 0 <= j < |lines| && Strip(lines[j]) == x) {
        var j :| 0 <= j < |lines| && Strip(lines[j]) == x;
        assert lines[1..][j - 1] == lines[j];
      }
    }
  }

  /** Lines that are already clean pass through unchanged. */
  lemma {:induction false} CleanLinesKeepsClean(lines: seq<string>)
    requires forall k :: 0 <= k < |lines| ==> IsCleanName(lines[k])
    ensures CleanLines(lines) == lines
  {
    if lines != [] {
      CleanLinesKeepsClean(lines[1..]);
      assert [lines[0]] + lines[1..] == lines;
    }
  }

  /** The names parsed from the response text: one per `'\n'`-separated
      line, stripped, blank lines dropped. */
  function ParseResponse(text: string): (names: seq<string>)
    ensures |names| <= |Split(text, '\n')|
    ensures forall k :: 0 <= k < |names| ==> IsCleanName(names[k])
  {
    CleanLinesAreClean(Split(text, '\n'));
    CleanLines(Split(text, '\n'))
  }

  /** A name is parsed from the text exactly when it is non-empty and is the
      strip of one of the text's lines. */
  lemma ParseResponseMembership(text: string)
    ensures forall x :: x in ParseResponse(text) <==>
      (x != [] && exists line :: line in Split(text, '\n') && Strip(line) == x)
  {
    var lines := Split(text, '\n');
    forall x
      ensures x in ParseResponse(text) <==> (x != [] && exists line :: line in lines && Strip(line) == x)
    {
      CleanLinesMembership(lines, x);
      if exists line :: line in lines && Strip(line) == x {
        var line :| line in lines && Strip(line) == x;
        var j :| 0 <= j < |lines| && lines[j] == line;
      }
    }
  }

  /** A response that lists clean names one per line parses back into
      exactly those names, in order. */
  lemma ParseJoinedNames(names: seq<string>)
    requires forall k :: 0 <= k < |names| ==> IsCleanName(names[k]) && '\n' !in names[k]
    ensures ParseResponse(Join(names, '\n')) == names
  {
    if names == [] {
      assert Split([], '\n') == [[]];
      assert Strip([]) == [];
    } else {
      SplitJoin(names, '\n');
      CleanLinesKeepsClean(names);
    }
  }

  /** What the service call came back with: a first candidate with text,
      a response without a usable candidate, or an exception. */
  datatype Reply = Candidate(text: string) | NoValidCandidate | CallFailed

  /** `get_ai_band_names` once the call has been made: the parsed names, or
      nothing when the response was unusable or the call failed. */
  function AiBandNames(reply: Reply): (names: seq<string>)
    ensures !reply.Candidate? ==> names == []
    ensures forall k :: 0 <= k < |names| ==> IsCleanName(names[k])
    ensures reply.Candidate? ==> forall x :: x in names <==>
      (x != [] && exists line :: line in Split(reply.text, '\n') && Strip(line) == x)
  {
    match reply
    case Candidate(text) =>
      ParseResponseMembership(text);
      ParseResponse(text)
    case NoValidCandidate => []
    case CallFailed => []
  }

  /** A three-line reply with surrounding spaces and a blank line. */
  lemma ThreeLineReply()
    ensures ParseResponse(" Neon\n\nWolf \nRiot") == ["Neon", "Wolf", "Riot"]
  {
    ReplyLines();
    JoinSplitsInto(" Neon", "", "Wolf ", "Riot");
    ReplyLinesCleaned();
  }

  lemma ReplyLines()
    ensures " Neon\n\nWolf \nRiot" == Join([" Neon", "", "Wolf ", "Riot"], '\n')
  {
  }

  lemma ReplyLinesCleaned()
    ensures CleanLines([" Neon", "", "Wolf ", "Riot"]) == ["Neon", "Wolf", "Riot"]
  {
    assert Strip(" Neon") == "Neon";
    assert Strip("Wolf ") == "Wolf";
  }

  lemma JoinSplitsInto(a: string, b: string, c: string, d: string)
    requires '\n' !in a && '\n' !in b && '\n' !in c && '\n' !in d
    ensures Split(Join([a, b, c, d], '\n'), '\n') == [a, b, c, d]
  {
    SplitJoin([a, b, c, d], '\n');
  }
}
