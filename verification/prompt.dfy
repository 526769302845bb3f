/** The recipe prompt: a fixed Swedish template in which the five request
    parameters fill one labelled line each and the ingredient listing comes
    last. Both server variants use this same template text. */
module Prompt {
  import opened Seqs
  import opened PyText

  /** The five form parameters, optional ones already defaulted to "". */
  datatype Params = Params(difficulty: string, mealType: string, numPeople: string, cuisine: string, dietary: string)

  const IntroSentence: string :=
    "Nedan finns en lista över " + "tillgängliga varor. "
    + "Skriv ett recept med fokus på " + "\"Longevity\" (långt liv) som är:"

  /** The prompt opens with an empty line, then the instruction sentence. */
  const Intro: string := "\n" + IntroSentence + "\n"

  const DifficultyLabel: string := "- Svårighetsgrad: "
  const MealLabel: string := "- Måltid: "
  const PeopleLabel: string := "- Antal personer: "
  const CuisineLabel: string := "- Föredraget kök/stilriktning: "
  const DietLabel: string := "- Kostpreferenser: "

  /** Everything between the parameter lines and the listing: the longevity food
      categories, the five required answer sections, the language demand. It
      is kept as a sequence of lines: no property below depends on the words. */
  function Guidance(): string {
    Flatten(seq(GuidanceLineCount, GuidanceLine))
  }

  const GuidanceLineCount := 29

  /** Line `k` of the guidance, newline included. */
  function GuidanceLine(k: nat): string {
    match k
    case 0 => "\n"
    case 1 => "Receptet ska innehålla ingredienser som är kända för att främja ett långt och hälsosamt liv, som till exempel:\n"
    case 2 => "- Baljväxter (bönor, linser)\n"
    case 3 => "- Fullkorn\n"
    case 4 => "- Nötter och frön\n"
    case 5 => "- Bär och färska frukter\n"
    case 6 => "- Gröna bladgrönsaker\n"
    case 7 => "- Fisk rik på omega-3 (om inte vegetariskt/veganskt)\n"
    case 8 => "- Fermenterade livsmedel\n"
    case 9 => "- Olivolja och andra hälsosamma fetter\n"
    case 10 => "\n"
    case 11 => "Struktur för svaret:\n"
    case 12 => "1) Förslag på rätt:\n"
    case 13 => "   - En kort kommentar om vad rätten heter, vilket land/ursprung den har, och varför den är bra för ett långt liv.\n"
    case 14 => "\n"
    case 15 => "2) Gör såhär:\n"
    case 16 => "   - En mycket kortfattad beskrivning av hur man tillagar rätten.\n"
    case 17 => "\n"
    case 18 => "3) Ingredienser du har:\n"
    case 19 => "   - Ange vilka av de tillgängliga varorna som används och hur mycket.\n"
    case 20 => "\n"
    case 21 => "4) Har du?:\n"
    case 22 => "   - Lista eventuella småingredienser (salt, peppar, tomatpuré etc.) som inte är avgörande för rätten.\n"
    case 23 => "\n"
    case 24 => "5) Longevity-fördelar:\n"
    case 25 => "   - En kort förklaring om hur ingredienserna i rätten bidrar till ett långt och hälsosamt liv.\n"
    case 26 => "\n"
    case 27 => "Ditt svar ska vara på svenska.\n"
    case _ => "\n"
  }

  const ListingHeader: string := "Lista över tillgängliga varor:\n"

  /** The labelled parameter lines in their fixed order. */
  function ParamLines(p: Params): (r: seq<string>)
    ensures |r| == 5
  {
    [ DifficultyLabel + p.difficulty + "\n",
      MealLabel + p.mealType + "\n",
      PeopleLabel + p.numPeople + "\n",
      CuisineLabel + p.cuisine + "\n",
      DietLabel + p.dietary + "\n" ]
  }

  /** The end of the prompt: the listing header, the listing, a newline. */
  function ListingBlock(listing: string): (r: string)
    ensures |r| == |ListingHeader| + |listing| + 1
  {
    ListingHeader + listing + "\n"
  }

  /** The template around a given guidance text: the opening, the parameter
      lines, the guidance, the listing block. */
  function Fill(guidance: string, p: Params, listing: string): (r: string)
    ensures StartsWith(r, Intro)
    ensures |r| >= |ListingBlock(listing)|
    ensures r[|r| - |ListingBlock(listing)|..] == ListingBlock(listing)
  {
    var head := Intro + Flatten(ParamLines(p));
    StartsWithConcat(Intro, Flatten(ParamLines(p)), Intro);
    StartsWithConcat(head, guidance, Intro);
    StartsWithConcat(head + guidance, ListingBlock(listing), Intro);
    head + guidance + ListingBlock(listing)
  }

  /** The f-string of the handler, as one deterministic function of the
      parameters and the listing: it opens with the instruction and ends with
      the listing header, the listing verbatim and a newline. */
  function Build(p: Params, listing: string): (r: string)
    ensures StartsWith(r, Intro)
    ensures |r| >= |ListingBlock(listing)|
    ensures r[|r| - |ListingBlock(listing)|..] == ListingBlock(listing)
  {
    Fill(Guidance(), p, listing)
  }

  /** No field value spans several lines. */
  predicate SingleLineParams(p: Params) {
    && '\n' !in p.difficulty && '\n' !in p.mealType && '\n' !in p.numPeople
    && '\n' !in p.cuisine && '\n' !in p.dietary
  }

  lemma IntroSingleLine()
    ensures '\n' !in IntroSentence
  {
    IntroPart1SingleLine();
    IntroPart2SingleLine();
    IntroPart3SingleLine();
    IntroPart4SingleLine();
    NoNewlineConcat("Nedan finns en lista över ", "tillgängliga varor. ");
    NoNewlineConcat("Nedan finns en lista över " + "tillgängliga varor. ", "Skriv ett recept med fokus på ");
    NoNewlineConcat("Nedan finns en lista över " + "tillgängliga varor. " + "Skriv ett recept med fokus på ",
                    "\"Longevity\" (långt liv) som är:");
  }

  lemma IntroPart1SingleLine()
    ensures '\n' !in "Nedan finns en lista över "
  {
  }

  lemma IntroPart2SingleLine()
    ensures '\n' !in "tillgängliga varor. "
  {
  }

  lemma IntroPart3SingleLine()
    ensures '\n' !in "Skriv ett recept med fokus på "
  {
  }

  lemma IntroPart4SingleLine()
    ensures '\n' !in "\"Longevity\" (långt liv) som är:"
  {
  }

  lemma NoNewlineConcat(a: string, b: string)
    requires '\n' !in a && '\n' !in b
    ensures '\n' !in a + b
  {
  }

  lemma LabelsSingleLine()
    ensures '\n' !in DifficultyLabel && '\n' !in MealLabel && '\n' !in PeopleLabel
    ensures '\n' !in CuisineLabel && '\n' !in DietLabel
  {
  }

  /** A text without newline, terminated by one, is a complete line. */
  lemma OneLine(s: string)
    requires '\n' !in s
    ensures IsCompleteLine(s + "\n")
  {
    assert (s + "\n")[..|s|] == s;
  }

  /** Read line by line, the prompt is: an empty line, the instruction
      sentence, and then the five parameter lines in the order difficulty,
      meal type, number of people, cuisine, diet. */
  lemma PromptLines(p: Params, listing: string)
    requires SingleLineParams(p)
    ensures var ls := Lines(Build(p, listing));
      && |ls| >= 7
      && ls[0] == "\n"
      && ls[1] == IntroSentence + "\n"
      && ls[2..7] == ParamLines(p)
  {
    FillLines(Guidance(), p, listing);
  }

  lemma FillLines(guidance: string, p: Params, listing: string)
    requires SingleLineParams(p)
    ensures var ls := Lines(Fill(guidance, p, listing));
      && |ls| >= 7
      && ls[0] == "\n"
      && ls[1] == IntroSentence + "\n"
      && ls[2..7] == ParamLines(p)
  {
    Associative(Intro + Flatten(ParamLines(p)), guidance, ListingBlock(listing));
    HeadLines(p, guidance + ListingBlock(listing));
  }

  /** The line structure of the head of the prompt, whatever follows it. */
  lemma {:induction false} HeadLines(p: Params, rest: string)
    requires SingleLineParams(p)
    ensures var ls := Lines(Intro + Flatten(ParamLines(p)) + rest);
      && |ls| >= 7
      && ls[0] == "\n"
      && ls[1] == IntroSentence + "\n"
      && ls[2..7] == ParamLines(p)
  {
    LabelsSingleLine();
    IntroSingleLine();
    var pl := ParamLines(p);
    assert '\n' !in DifficultyLabel + p.difficulty;
    assert '\n' !in MealLabel + p.mealType;
    assert '\n' !in PeopleLabel + p.numPeople;
    assert '\n' !in CuisineLabel + p.cuisine;
    assert '\n' !in DietLabel + p.dietary;
    OneLine(""); OneLine(IntroSentence);
    OneLine(DifficultyLabel + p.difficulty); OneLine(MealLabel + p.mealType);
    OneLine(PeopleLabel + p.numPeople); OneLine(CuisineLabel + p.cuisine); OneLine(DietLabel + p.dietary);
    var head := ["\n", IntroSentence + "\n"] + pl;
    assert Flatten(head) == Intro + Flatten(pl) by {
      assert Flatten(head) == "\n" + Flatten(head[1..]);
      assert head[1..][1..] == pl;
      assert Flatten(head[1..]) == IntroSentence + "\n" + Flatten(pl);
    }
    LinesAfter(head, rest);
  }

  lemma Associative(a: string, b: string, c: string)
    ensures a + b + c == a + (b + c)
  {
  }

  /** For single-line parameters the prompt determines its inputs: different
      parameters or listings never produce the same prompt. */
  lemma BuildInjective(p: Params, l: string, q: Params, m: string)
    requires SingleLineParams(p) && SingleLineParams(q)
    requires Build(p, l) == Build(q, m)
    ensures p == q && l == m
  {
    FillInjective(Guidance(), p, l, q, m);
  }

  lemma FillInjective(g: string, p: Params, l: string, q: Params, m: string)
    requires SingleLineParams(p) && SingleLineParams(q)
    requires Fill(g, p, l) == Fill(g, q, m)
    ensures p == q && l == m
  {
    FillLines(g, p, l);
    FillLines(g, q, m);
    var a := ParamLines(p);
    var b := ParamLines(q);
    assert a == b;
    LabelCancel(DifficultyLabel, p.difficulty, q.difficulty);
    LabelCancel(MealLabel, p.mealType, q.mealType);
    LabelCancel(PeopleLabel, p.numPeople, q.numPeople);
    LabelCancel(CuisineLabel, p.cuisine, q.cuisine);
    LabelCancel(DietLabel, p.dietary, q.dietary);
    var pre := Intro + Flatten(a) + g;
    assert Fill(g, p, l) == pre + ListingBlock(l);
    assert Fill(g, q, m) == pre + ListingBlock(m);
    ListingCancel(pre, l, m);
  }

  lemma ListingCancel(pre: string, l: string, m: string)
    requires pre + ListingBlock(l) == pre + ListingBlock(m)
    ensures l == m
  {
    var n := |pre| + |ListingHeader|;
    assert l == (pre + ListingBlock(l))[n..n + |l|];
    assert m == (pre + ListingBlock(m))[n..n + |m|];
  }

  lemma LabelCancel(tag: string, x: string, y: string)
    requires tag + x + "\n" == tag + y + "\n"
    ensures x == y
  {
    assert x == (tag + x + "\n")[|tag|..|tag| + |x|];
    assert y == (tag + y + "\n")[|tag|..|tag| + |y|];
  }
}
