/** The recipe-library page (library_browse.js): the list of text files the
    server offers, the detail view of one file and its download. The server's
    answers are inputs: the parsed list (or a failed request) and the text of
    one file (or a failed request). */
module Library {
  import opened Options
  import opened JsText

  /** One entry of `GET /api/library/recipes`. */
  datatype Entry = Entry(id: JsString, filename: JsString, title: JsString, date: int, size: int)

  /** `/api/library/recipes/` */
  const RecipesPath: JsString := Bmp("/api/library/recipes/")

  /** The address of one library file, for reading and for downloading. */
  function RecipeUrl(id: JsString): (r: JsString)
    ensures |r| == |RecipesPath| + |id|
    ensures r[..|RecipesPath|] == RecipesPath && r[|RecipesPath|..] == id
  {
    RecipesPath + id
  }

  // ---------------------------------------------------------------------
  // The title of the detail view

  /** `pat` occurs in `s` at `i`. */
  predicate OccursAt(s: JsString, pat: JsString, i: int) {
    0 <= i && i + |pat| <= |s| && s[i..i + |pat|] == pat
  }

  /** The first occurrence of `pat` at or after `i`, or `|s|` when there is
      none. */
  function Search(s: JsString, pat: JsString, i: nat): (k: nat)
    requires |pat| > 0 && i <= |s|
    ensures i <= k <= |s|
    ensures k < |s| ==> OccursAt(s, pat, k)
    ensures forall j :: i <= j < k ==> !OccursAt(s, pat, j)
    decreases |s| - i
  {
    if i + |pat| > |s| then |s|
    else if s[i..i + |pat|] == pat then i
    else Search(s, pat, i + 1)
  }

  /** `s.replace(pat, rep)` with a string pattern: only the first occurrence
      is replaced. */
  function ReplaceFirst(s: JsString, pat: JsString, rep: JsString): (r: JsString)
    requires |pat| > 0
  {
    var k := Search(s, pat, 0);
    if k == |s| then s else s[..k] + rep + s[k + |pat|..]
  }

  /** `s.replace(/_/g, ' ')`. */
  function Respace(s: JsString): (r: JsString)
    ensures |r| == |s|
    ensures UNDERSCORE !in r
    ensures forall i :: 0 <= i < |s| ==> r[i] == (if s[i] == UNDERSCORE then SPACE else s[i])
  {
    seq(|s|, i requires 0 <= i < |s| => if s[i] == UNDERSCORE then SPACE else s[i])
  }

  /** `filename.replace('.txt', '').replace(/_/g, ' ')`. */
  function DetailTitle(filename: JsString): (r: JsString)
    ensures UNDERSCORE !in r
  {
    Respace(ReplaceFirst(filename, TXT, []))
  }

  /** Only the first `.txt` is removed: everything before and after it stays,
      with underscores turned into spaces. */
  lemma DetailTitleRemovesFirst(filename: JsString, k: nat)
    requires OccursAt(filename, TXT, k)
    requires forall j :: 0 <= j < k ==> !OccursAt(filename, TXT, j)
    ensures DetailTitle(filename) == Respace(filename[..k] + filename[k + 4..])
    ensures |DetailTitle(filename)| == |filename| - 4
  {
    assert Search(filename, TXT, 0) == k;
  }

  /** Without `.txt` the name is only respaced. */
  lemma DetailTitleWithoutTxt(filename: JsString)
    requires forall j :: 0 <= j < |filename| ==> !OccursAt(filename, TXT, j)
    ensures DetailTitle(filename) == Respace(filename)
  {
  }

  /** `<stem>.txt` with no `.txt` inside the stem: the title is the stem with
      underscores as spaces, four units shorter than the file name. No
      occurrence can straddle the stem's end, because `.txt` has no `.` after
      its first unit. */
  lemma DetailTitleOfTxtFile(stem: JsString)
    requires forall j :: 0 <= j < |stem| ==> !OccursAt(stem, TXT, j)
    ensures DetailTitle(stem + TXT) == Respace(stem)
    ensures |DetailTitle(stem + TXT)| == |stem + TXT| - 4
  {
    var f := stem + TXT;
    assert OccursAt(f, TXT, |stem|) by {
      assert f[|stem|..|stem| + 4] == TXT;
    }
    forall j | 0 <= j < |stem|
      ensures !OccursAt(f, TXT, j)
    {
      if j + 4 <= |stem| {
        assert f[j..j + 4] == stem[j..j + 4];
        assert !OccursAt(stem, TXT, j);
      } else {
        var m := |stem| - j;
        assert 1 <= m <= 3 && f[j + m] == 0x2E;
        assert f[j..j + 4][m] == 0x2E;
      }
    }
    DetailTitleRemovesFirst(f, |stem|);
    assert f[..|stem|] + f[|stem| + 4..] == stem;
  }

  // ---------------------------------------------------------------------
  // Detail view and download

  /** The `currentViewingLibraryRecipe` item: `{id, filename}`, or `{}` when
      nothing has been viewed. */
  datatype Viewing = Viewing(id: Option<JsString>, filename: Option<JsString>)

  const NothingViewed := Viewing(None, None)

  datatype Detail = Shown(title: JsString, text: JsString) | Failed

  /** `showRecipeDetails(recipeId, filename)`: `fileText` is the answer to
      `GET /api/library/recipes/<id>` (None when the request fails). A
      successful read shows the title and the text and remembers id and file
      name; a failed one leaves the remembered recipe as it was. */
  function ShowDetails(id: JsString, filename: JsString, fileText: Option<JsString>, viewing: Viewing)
    : (r: (Detail, Viewing))
    ensures fileText.None? ==> r == (Failed, viewing)
    ensures fileText.Some? ==>
      r.0 == Shown(DetailTitle(filename), fileText.value) && r.1 == Viewing(Some(id), Some(filename))
  {
    match fileText
    case None => (Failed, viewing)
    case Some(text) => (Shown(DetailTitle(filename), text), Viewing(Some(id), Some(filename)))
  }

  /** The URL the detail view reads. */
  function DetailUrl(id: JsString): JsString {
    RecipeUrl(id)
  }

  datatype Link = Link(href: JsString, download: JsString)

  /** The download button: nothing without a remembered, non-empty id;
      otherwise a link to the file, saved under the remembered file name or,
      when that is missing or empty, `<id>.txt`. */
  function DownloadLink(v: Viewing): (r: Option<Link>)
    ensures r.None? <==> v.id.None? || v.id.value == []
    ensures r.Some? ==> r.value.href == RecipeUrl(v.id.value)
    ensures r.Some? && v.filename.Some? && v.filename.value != [] ==> r.value.download == v.filename.value
    ensures r.Some? && (v.filename.None? || v.filename.value == []) ==> r.value.download == v.id.value + TXT
  {
    match v.id
    case None => None
    case Some(id) =>
      if id == [] then None
      else
        var name := if v.filename.Some? && v.filename.value != [] then v.filename.value else id + TXT;
        Some(Link(RecipeUrl(id), name))
  }

  /** The download after a successful detail view fetches the file the view
      read, under the card's file name or `<id>.txt`. */
  lemma DownloadMatchesDetail(id: JsString, filename: JsString, text: JsString, viewing: Viewing)
    requires id != []
    ensures var after := ShowDetails(id, filename, Some(text), viewing).1;
      && DownloadLink(after).Some?
      && DownloadLink(after).value.href == DetailUrl(id)
      && DownloadLink(after).value.download == (if filename != [] then filename else id + TXT)
  {
  }

  // ---------------------------------------------------------------------
  // The list

  /** A card carries the entry's id and file name as data attributes and
      shows its title. */
  datatype Card = Card(id: JsString, filename: JsString, title: JsString)

  datatype ListView = ErrorState | EmptyState | Cards(cards: seq<Card>)

  /** `loadLibraryRecipes`: `listing` is the parsed answer of
      `GET /api/library/recipes`, None when the request fails. The server's
      order is kept. */
  function LoadLibrary(listing: Option<seq<Entry>>): (v: ListView)
    ensures v.ErrorState? <==> listing.None?
    ensures v.EmptyState? <==> listing == Some([])
    ensures v.Cards? ==>
      && |v.cards| == |listing.value|
      && forall i :: 0 <= i < |v.cards| ==>
           v.cards[i] == Card(listing.value[i].id, listing.value[i].filename, listing.value[i].title)
  {
    match listing
    case None => ErrorState
    case Some(es) =>
      if |es| == 0 then EmptyState
      else Cards(seq(|es|, i requires 0 <= i < |es| => Card(es[i].id, es[i].filename, es[i].title)))
  }

  /** Clicking a card reads that card's file and remembers it for the
      download; the title shown is the respaced file name, not the server's
      title. */
  lemma CardOpensItsFile(es: seq<Entry>, i: nat, text: JsString)
    requires i < |es|
    ensures var v := LoadLibrary(Some(es));
      && v.Cards?
      && var c := v.cards[i];
      && DetailUrl(c.id) == RecipeUrl(es[i].id)
      && ShowDetails(c.id, c.filename, Some(text), NothingViewed).0
         == Shown(DetailTitle(es[i].filename), text)
      && ShowDetails(c.id, c.filename, Some(text), NothingViewed).1
         == Viewing(Some(es[i].id), Some(es[i].filename))
  {
  }
}
