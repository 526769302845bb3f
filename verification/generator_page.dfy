/** The generator page (script.js): changing the ingredient-source choice
    sets which files the picker offers, and the answer of `/generate` is shown
    formatted or as an error. The select's value and the picker's `accept`
    attribute are JavaScript strings. */
module GeneratorPage {
  import opened JsText
  import Handler
  import RecipeFormat
  import Seqs

  /** The option values of the choice select: "1" for a text file, "2" for a
      photo. */
  const TextChoice: JsString := [0x31]
  const ImageChoice: JsString := [0x32]

  const TextFiles: JsString := TXT
  const ImageFiles: JsString := Bmp(".jpg,.jpeg,.png")

  /** The change listener: the new `accept` attribute for the selected
      value, given the current one. Other values leave it alone. */
  function OnChoiceChange(choice: JsString, accept: JsString): (r: JsString)
  {
    if choice == TextChoice then TextFiles
    else if choice == ImageChoice then ImageFiles
    else accept
  }

  /** The listener sets a file filter for exactly the two choices the server
      serves, and the filter it sets depends on the choice alone. */
  lemma OnChoiceChangeCases(choice: JsString, accept: JsString)
    ensures choice == TextChoice ==> OnChoiceChange(choice, accept) == TXT
    ensures choice == ImageChoice ==> OnChoiceChange(choice, accept) == ImageFiles
    ensures choice != TextChoice && choice != ImageChoice ==> OnChoiceChange(choice, accept) == accept
  {
  }

  /** Only the last change counts for a served choice, and repeating a change
      alters nothing. */
  lemma OnChoiceChangeForgets(first: JsString, second: JsString, accept: JsString)
    ensures second == TextChoice || second == ImageChoice ==>
      OnChoiceChange(second, OnChoiceChange(first, accept)) == OnChoiceChange(second, accept)
    ensures OnChoiceChange(first, OnChoiceChange(first, accept)) == OnChoiceChange(first, accept)
  {
  }

  /** After a change to a served choice the filter tells which choice it
      was, whatever the picker offered before. */
  lemma ChoiceFromFilter(c1: JsString, a1: JsString, c2: JsString, a2: JsString)
    requires c1 == TextChoice || c1 == ImageChoice
    requires c2 == TextChoice || c2 == ImageChoice
    ensures OnChoiceChange(c1, a1) == OnChoiceChange(c2, a2) <==> c1 == c2
  {
    assert |ImageFiles| == 15 && |TextFiles| == 4;
  }

  // ---------------------------------------------------------------------
  // Showing the answer

  /** What the submit handler puts in the result area: the formatted recipe,
      or the error block for a status that is not ok or for an answer without
      a recipe ("Inget recept i svaret"). */
  datatype Display = Formatted(html: JsString) | StatusError(status: nat) | NoRecipe

  /** The submit handler once `/generate` has answered. A status outside
      200-299 throws; so does a `recipe` that is falsy, which for a string
      means empty. Otherwise the recipe, as the UTF-16 text `response.json()`
      yields, goes through `formatRecipe`. */
  function OnResponse(resp: Handler.Response): (d: Display)
  {
    match resp
    case Failure(status, _) =>
      if 200 <= status < 300 then NoRecipe else StatusError(status)
    case Recipe(recipe) =>
      if recipe == [] then NoRecipe else Formatted(RecipeFormat.FormatOnGeneratorPage(Utf16(recipe)))
  }

  /** The page formats exactly the non-empty recipes the endpoint returns,
      and every failure of the endpoint shows as status 500. */
  lemma GeneratedDisplay(v: Handler.Variant, req: Handler.Request, provider: Handler.Provider)
    ensures var r := Handler.Generate(v, req, provider);
      && (OnResponse(r.response).Formatted? <==> r.response.Recipe? && r.response.recipe != [])
      && (r.response.Failure? ==> OnResponse(r.response) == StatusError(500))
      && (OnResponse(r.response).Formatted? ==>
            OnResponse(r.response).html == RecipeFormat.FormatOnGeneratorPage(Utf16(r.response.recipe)))
  {
  }

  /** A recipe in the Basic Multilingual Plane, as Swedish text is, reaches
      `formatRecipe` one code unit per character, and its sections join back
      to that text. */
  lemma BmpRecipeDisplay(recipe: string)
    requires recipe != [] && IsBmp(recipe)
    ensures OnResponse(Handler.Recipe(recipe)) == Formatted(RecipeFormat.FormatOnGeneratorPage(Bmp(recipe)))
    ensures Seqs.Join(RecipeFormat.Sections(Bmp(recipe)), [NL]) == Bmp(recipe)
  {
    Utf16OfBmp(recipe);
    RecipeFormat.JoinSections(Bmp(recipe));
  }
}
