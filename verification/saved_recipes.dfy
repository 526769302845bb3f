/** The saved-recipes page (recipes.js): the list of recipes kept in the
    browser's storage, newest first; the detail view of one of them; and the
    download of the viewed recipe as a text file. Storage reads are inputs:
    the parsed `recipes` array and the parsed `currentViewingRecipe` item. */
module SavedRecipes {
  import opened Options
  import opened Seqs
  import opened JsText
  import RecipeFormat

  datatype Meta = Meta(mealType: Option<JsString>, difficulty: Option<JsString>)

  /** A stored recipe. `date` is the stored date as a timestamp: the page only
      compares dates and formats them for display. */
  datatype Saved = Saved(id: JsString, title: JsString, content: JsString, date: int, meta: Option<Meta>)

  /** A code unit the file-name pattern `[a-zA-Z0-9åäöÅÄÖ]` keeps. */
  predicate Allowed(u: CodeUnit) {
    || 0x61 <= u <= 0x7A
    || 0x41 <= u <= 0x5A
    || 0x30 <= u <= 0x39
    || u == 0xE5 || u == 0xE4 || u == 0xF6
    || u == 0xC5 || u == 0xC4 || u == 0xD6
  }

  /** `title.replace(/[^a-zA-Z0-9åäöÅÄÖ]/g, '_')`: the pattern has no `u`
      flag, so it replaces code unit by code unit, and a character outside
      the Basic Multilingual Plane becomes two underscores. */
  function Sanitize(title: JsString): (r: JsString)
    ensures |r| == |title|
    ensures forall i :: 0 <= i < |r| ==> Allowed(r[i]) || r[i] == UNDERSCORE
    ensures forall i :: 0 <= i < |r| ==> (Allowed(title[i]) ==> r[i] == title[i])
    ensures forall i :: 0 <= i < |r| ==> (!Allowed(title[i]) ==> r[i] == UNDERSCORE)
  {
    seq(|title|, i requires 0 <= i < |title| => if Allowed(title[i]) then title[i] else UNDERSCORE)
  }

  /** The download file name: the sanitised title and `.txt`. */
  function FileName(title: JsString): (r: JsString)
    ensures |r| == |title| + 4
    ensures r[..|title|] == Sanitize(title) && r[|title|..] == TXT
  {
    Sanitize(title) + TXT
  }

  /** Sanitising a sanitised name changes nothing. */
  lemma SanitizeIdempotent(title: JsString)
    ensures Sanitize(Sanitize(title)) == Sanitize(title)
  {
  }

  /** A title made of allowed units only is its own stem. */
  lemma SanitizeKeepsAllowed(title: JsString)
    requires forall i :: 0 <= i < |title| ==> Allowed(title[i])
    ensures Sanitize(title) == title
  {
  }

  /** A character outside the Basic Multilingual Plane, such as an emoji in
      a title, costs two underscores. */
  lemma SanitizeSurrogatePair(c: char)
    requires c as int >= 0x1_0000
    ensures Sanitize(CharUnits(c)) == [UNDERSCORE, UNDERSCORE]
  {
  }

  /** The download button: nothing without a viewed recipe whose content is
      non-empty (`!currentRecipe.content`); otherwise the file name and the
      content of the viewed recipe. */
  datatype Download = Download(name: JsString, body: JsString)

  function DownloadViewed(current: Option<Saved>): (r: Option<Download>)
    ensures r.None? <==> current.None? || current.value.content == []
    ensures r.Some? ==> r.value.body == current.value.content && r.value.name == FileName(current.value.title)
    ensures r.Some? ==>
      var title := current.value.title;
      && |r.value.name| == |title| + 4
      && r.value.name[..|title|] == Sanitize(title)
      && r.value.name[|title|..] == TXT
  {
    match current
    case None => None
    case Some(recipe) =>
      if recipe.content == [] then None else Some(Download(FileName(recipe.title), recipe.content))
  }

  // ---------------------------------------------------------------------
  // The list, newest first

  /** Inserts `x` in front of the first element that is not newer than it,
      so that `x` stays ahead of elements of the same date. */
  function InsertNewest(x: Saved, s: seq<Saved>): (r: seq<Saved>)
    ensures |r| == |s| + 1
  {
    if |s| == 0 then [x]
    else if s[0].date <= x.date then [x] + s
    else [s[0]] + InsertNewest(x, s[1..])
  }

  /** `recipes.sort((a, b) => new Date(b.date) - new Date(a.date))`, with the
      stability `Array.prototype.sort` guarantees. */
  function SortNewest(rs: seq<Saved>): (r: seq<Saved>)
    ensures |r| == |rs|
  {
    if |rs| == 0 then [] else InsertNewest(rs[0], SortNewest(rs[1..]))
  }

  predicate NewestFirst(s: seq<Saved>) {
    forall i, j :: 0 <= i < j < |s| ==> s[i].date >= s[j].date
  }

  lemma {:induction false} InsertNewestOrdered(x: Saved, s: seq<Saved>)
    requires NewestFirst(s)
    ensures NewestFirst(InsertNewest(x, s))
    decreases |s|
  {
    if |s| > 0 && s[0].date > x.date {
      var t := InsertNewest(x, s[1..]);
      InsertNewestOrdered(x, s[1..]);
      InsertNewestBound(x, s[1..], s[0].date);
      var r := [s[0]] + t;
      forall i, j | 0 <= i < j < |r|
        ensures r[i].date >= r[j].date
      {
        assert r[j] == t[j - 1];
        if i > 0 {
          assert r[i] == t[i - 1];
        }
      }
    }
  }

  /** An insertion brings in no date later than those already there. */
  lemma {:induction false} InsertNewestBound(x: Saved, s: seq<Saved>, m: int)
    requires x.date <= m
    requires forall i :: 0 <= i < |s| ==> s[i].date <= m
    ensures forall i :: 0 <= i < |InsertNewest(x, s)| ==> InsertNewest(x, s)[i].date <= m
    decreases |s|
  {
    if |s| > 0 && s[0].date > x.date {
      InsertNewestBound(x, s[1..], m);
      var t := InsertNewest(x, s[1..]);
      assert forall i :: 1 <= i < |t| + 1 ==> ([s[0]] + t)[i] == t[i - 1];
    }
  }

  lemma {:induction false} InsertNewestMultiset(x: Saved, s: seq<Saved>)
    ensures multiset(InsertNewest(x, s)) == multiset(s) + multiset{x}
    decreases |s|
  {
    if |s| > 0 && s[0].date > x.date {
      InsertNewestMultiset(x, s[1..]);
      ConsDrop(s);
    }
  }

  /** The displayed order: newest first, and a permutation of the store. */
  lemma {:induction false} SortNewestCorrect(rs: seq<Saved>)
    ensures NewestFirst(SortNewest(rs))
    ensures multiset(SortNewest(rs)) == multiset(rs)
    decreases |rs|
  {
    if |rs| > 0 {
      SortNewestCorrect(rs[1..]);
      InsertNewestOrdered(rs[0], SortNewest(rs[1..]));
      InsertNewestMultiset(rs[0], SortNewest(rs[1..]));
      ConsDrop(rs);
    }
  }

  /** Whether a recipe carries date `d`. */
  function OfDate(d: int): Saved -> bool {
    (r: Saved) => r.date == d
  }

  /** Recipes of one date keep their stored order. */
  lemma {:induction false} InsertNewestOfDate(x: Saved, s: seq<Saved>, d: int)
    ensures Filter(InsertNewest(x, s), OfDate(d))
      == (if x.date == d then [x] else []) + Filter(s, OfDate(d))
    decreases |s|
  {
    if |s| == 0 {
    } else if s[0].date <= x.date {
      FilterCons(x, s, OfDate(d));
    } else {
      InsertNewestOfDate(x, s[1..], d);
      InsertNewestOfDateStep(x, s, d);
    }
  }

  /** The step of the induction: `x` goes past the newer first element. */
  lemma InsertNewestOfDateStep(x: Saved, s: seq<Saved>, d: int)
    requires |s| > 0 && s[0].date > x.date
    requires Filter(InsertNewest(x, s[1..]), OfDate(d))
      == (if x.date == d then [x] else []) + Filter(s[1..], OfDate(d))
    ensures Filter(InsertNewest(x, s), OfDate(d))
      == (if x.date == d then [x] else []) + Filter(s, OfDate(d))
  {
    var t := InsertNewest(x, s[1..]);
    var rest := Filter(s[1..], OfDate(d));
    assert InsertNewest(x, s) == [s[0]] + t;
    FilterCons(s[0], t, OfDate(d));
    ConsDrop(s);
    FilterCons(s[0], s[1..], OfDate(d));
    if x.date == d {
      assert Filter(s, OfDate(d)) == rest;
      assert Filter([s[0]] + t, OfDate(d)) == [x] + rest;
    } else {
      assert Filter(t, OfDate(d)) == rest;
    }
  }

  /** The sort is stable: for every date, the recipes of that date appear in
      the order in which they are stored. */
  lemma {:induction false} SortNewestStable(rs: seq<Saved>, d: int)
    ensures Filter(SortNewest(rs), OfDate(d)) == Filter(rs, OfDate(d))
    decreases |rs|
  {
    if |rs| > 0 {
      SortNewestStable(rs[1..], d);
      InsertNewestOfDate(rs[0], SortNewest(rs[1..]), d);
    }
  }

  // ---------------------------------------------------------------------
  // Rendering the list

  const NoMeal: JsString := Bmp("Måltid ej angiven")
  const NoDifficulty: JsString := Bmp("Svårighetsgrad ej angiven")

  /** `x || fallback` for an optional text: undefined and "" both fall back. */
  function OrElse(x: Option<JsString>, fallback: JsString): (r: JsString)
    ensures x.Some? && x.value != [] ==> r == x.value
    ensures x.None? || x.value == [] ==> r == fallback
  {
    if x.Some? && x.value != [] then x.value else fallback
  }

  /** A card of the list. */
  datatype Card = Card(id: JsString, title: JsString, date: int, meal: JsString, difficulty: JsString)

  /** `const meta = recipe.meta || {}` and the two spans that fall back to
      their placeholders. */
  function CardOf(recipe: Saved): (c: Card)
    ensures c.id == recipe.id && c.title == recipe.title && c.date == recipe.date
  {
    var meta := recipe.meta.GetOr(Meta(None, None));
    Card(recipe.id, recipe.title, recipe.date, OrElse(meta.mealType, NoMeal), OrElse(meta.difficulty, NoDifficulty))
  }

  /** A recipe without meta, or with empty fields, shows both placeholders. */
  lemma MissingMetaShowsPlaceholders(recipe: Saved)
    requires recipe.meta.None? || recipe.meta.value == Meta(None, None)
    ensures CardOf(recipe).meal == NoMeal && CardOf(recipe).difficulty == NoDifficulty
  {
  }

  datatype ListView = EmptyState | Cards(cards: seq<Card>)

  /** `loadRecipesList`: the empty-state message for an empty store,
      otherwise one card per recipe, newest first. */
  function LoadList(rs: seq<Saved>): (v: ListView)
  {
    if |rs| == 0 then EmptyState
    else Cards(seq(|rs|, i requires 0 <= i < |rs| => CardOf(SortNewest(rs)[i])))
  }

  /** The card of every recipe, in the order given. */
  function CardsOf(s: seq<Saved>): (r: seq<Card>)
    ensures |r| == |s|
    ensures forall i :: 0 <= i < |s| ==> r[i] == CardOf(s[i])
  {
    seq(|s|, i requires 0 <= i < |s| => CardOf(s[i]))
  }

  lemma CardsOfCons(a: Saved, s: seq<Saved>)
    ensures CardsOf([a] + s) == [CardOf(a)] + CardsOf(s)
  {
    var l, r := CardsOf([a] + s), [CardOf(a)] + CardsOf(s);
    forall i | 0 <= i < |l|
      ensures l[i] == r[i]
    {
      if i > 0 {
        assert ([a] + s)[i] == s[i - 1];
      }
    }
  }

  /** Inserting a recipe adds exactly its card. */
  lemma {:induction false} InsertNewestCards(x: Saved, s: seq<Saved>)
    ensures multiset(CardsOf(InsertNewest(x, s))) == multiset(CardsOf(s)) + multiset{CardOf(x)}
    decreases |s|
  {
    if |s| == 0 {
      assert CardsOf([x]) == [CardOf(x)];
    } else if s[0].date <= x.date {
      CardsOfCons(x, s);
    } else {
      InsertNewestCards(x, s[1..]);
      CardsOfCons(s[0], InsertNewest(x, s[1..]));
      CardsOfCons(s[0], s[1..]);
      ConsDrop(s);
    }
  }

  /** Sorting shows every stored recipe's card exactly as often as it is
      stored. */
  lemma {:induction false} SortNewestCards(rs: seq<Saved>)
    ensures multiset(CardsOf(SortNewest(rs))) == multiset(CardsOf(rs))
    decreases |rs|
  {
    if |rs| > 0 {
      SortNewestCards(rs[1..]);
      InsertNewestCards(rs[0], SortNewest(rs[1..]));
      CardsOfCons(rs[0], rs[1..]);
      ConsDrop(rs);
    }
  }

  /** The empty state exactly for an empty store; otherwise as many cards as
      stored recipes, ordered newest first, each card of a stored recipe,
      and every stored recipe's card shown as often as the recipe is
      stored. */
  lemma LoadListShape(rs: seq<Saved>)
    ensures LoadList(rs).EmptyState? <==> |rs| == 0
    ensures LoadList(rs).Cards? ==>
      && |LoadList(rs).cards| == |rs|
      && (forall i, j :: 0 <= i < j < |rs| ==> LoadList(rs).cards[i].date >= LoadList(rs).cards[j].date)
      && (forall i :: 0 <= i < |rs| ==> exists k :: 0 <= k < |rs| && LoadList(rs).cards[i] == CardOf(rs[k]))
    ensures LoadList(rs).Cards? ==> multiset(LoadList(rs).cards) == multiset(CardsOf(rs))
  {
    SortNewestCorrect(rs);
    var sorted := SortNewest(rs);
    if |rs| > 0 {
      assert LoadList(rs).cards == CardsOf(sorted);
      SortNewestCards(rs);
    }
    forall i | 0 <= i < |rs|
      ensures exists k :: 0 <= k < |rs| && CardOf(sorted[i]) == CardOf(rs[k])
    {
      assert sorted[i] in multiset(sorted);
      assert sorted[i] in rs;
      var k :| 0 <= k < |rs| && rs[k] == sorted[i];
    }
  }

  // ---------------------------------------------------------------------
  // The detail view

  /** `recipes.find(r => r.id === recipeId)`: the first stored recipe with
      that id. */
  method FindById(rs: seq<Saved>, id: JsString) returns (r: Option<Saved>)
    ensures r.None? <==> forall i :: 0 <= i < |rs| ==> rs[i].id != id
    ensures r.Some? ==> r.value.id == id
    ensures r.Some? ==> exists i :: 0 <= i < |rs| && rs[i] == r.value && (forall j :: 0 <= j < i ==> rs[j].id != id)
  {
    var i := 0;
    while i < |rs|
      invariant 0 <= i <= |rs|
      invariant forall j :: 0 <= j < i ==> rs[j].id != id
    {
      if rs[i].id == id {
        return Some(rs[i]);
      }
      i := i + 1;
    }
    return None;
  }

  datatype Detail = NotFound | Shown(recipe: Saved, html: JsString)

  /** `showRecipeDetails`: an unknown id only raises the "not found" alert
      and leaves the viewed recipe as it was; a known id shows the first
      recipe with it, formatted, and remembers it as the viewed recipe. */
  method ShowDetails(rs: seq<Saved>, id: JsString, viewed: Option<Saved>)
    returns (d: Detail, viewedAfter: Option<Saved>)
    ensures d.NotFound? <==> forall i :: 0 <= i < |rs| ==> rs[i].id != id
    ensures d.NotFound? ==> viewedAfter == viewed
    ensures d.Shown? ==>
      && viewedAfter == Some(d.recipe)
      && d.recipe.id == id
      && (exists i :: 0 <= i < |rs| && rs[i] == d.recipe && forall j :: 0 <= j < i ==> rs[j].id != id)
      && d.html == RecipeFormat.FormatOnSavedPage(d.recipe.content)
  {
    var found := FindById(rs, id);
    match found
    case None =>
      d, viewedAfter := NotFound, viewed;
    case Some(recipe) =>
      d, viewedAfter := Shown(recipe, RecipeFormat.FormatOnSavedPage(recipe.content)), Some(recipe);
  }

  /** After a recipe is shown, the download offers its content under its
      sanitised title, unless the content is empty. */
  method ShowThenDownload(rs: seq<Saved>, id: JsString, viewed: Option<Saved>)
    returns (dl: Option<Download>)
    ensures (exists i :: 0 <= i < |rs| && rs[i].id == id) ==>
      (dl.Some? <==> exists i :: 0 <= i < |rs| && rs[i].id == id && rs[i].content != []
                                  && (forall j :: 0 <= j < i ==> rs[j].id != id))
  {
    var d, after := ShowDetails(rs, id, viewed);
    dl := DownloadViewed(after);
  }
}
