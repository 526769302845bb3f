/** `formatRecipe` of the browser pages: the recipe text is cut into numbered
    sections (`recipeText.split(/\n(?=\d\))/)`), each section into a title line
    and the rest (`section.split('\n')`), and every section becomes one HTML
    block of a template literal. The generator page and the saved-recipes page
    carry two copies of the function that differ only in the indentation of
    the template. */
module RecipeFormat {
  import opened Seqs
  import opened JsText

  const RPAREN: CodeUnit := 0x29

  /** `\d` without the `u` flag: an ASCII digit. */
  predicate IsDigit(u: CodeUnit) {
    0x30 <= u <= 0x39
  }

  /** The regular expression `\n(?=\d\))` matches at `i`: a newline, and
      right after it a digit and `)`. Only the newline is consumed. */
  predicate BreakAt(s: JsString, i: int) {
    0 <= i && i + 2 < |s| && s[i] == NL && IsDigit(s[i + 1]) && s[i + 2] == RPAREN
  }

  /** A section heading as the template asks for them: `1)`, `2)`, ... */
  predicate Numbered(s: JsString) {
    |s| >= 2 && IsDigit(s[0]) && s[1] == RPAREN
  }

  /** The first match at or after `i`, or `|s|`. */
  function FindBreak(s: JsString, i: nat): (k: nat)
    requires i <= |s|
    ensures i <= k <= |s|
    ensures k < |s| ==> BreakAt(s, k)
    ensures forall j :: i <= j < k ==> !BreakAt(s, j)
    decreases |s| - i
  {
    if i == |s| then i
    else if BreakAt(s, i) then i
    else FindBreak(s, i + 1)
  }

  /** `recipeText.split(/\n(?=\d\))/)`. The search for the next match starts
      right after the consumed newline, and the lookahead only inspects the
      two following units, so a match in the remainder is a match in `s`. */
  function Sections(s: JsString): (r: seq<JsString>)
    ensures |r| >= 1
    decreases |s|
  {
    var k := FindBreak(s, 0);
    if k == |s| then [s] else [s[..k]] + Sections(s[k + 1..])
  }

  /** The shape a correct cut has: at least one piece, no piece containing a
      match, and every piece after the first starting with a heading. */
  predicate WellCut(parts: seq<JsString>) {
    && |parts| >= 1
    && (forall k, j :: 0 <= k < |parts| && 0 <= j < |parts[k]| ==> !BreakAt(parts[k], j))
    && (forall k :: 1 <= k < |parts| ==> Numbered(parts[k]))
  }

  /** Where the first match is. */
  lemma FindBreakIs(s: JsString, m: nat)
    requires m < |s| && BreakAt(s, m)
    requires forall j :: 0 <= j < m ==> !BreakAt(s, j)
    ensures FindBreak(s, 0) == m
  {
  }

  /** A text that starts with a heading keeps it in its first section. */
  lemma FirstSectionNumbered(s: JsString)
    requires Numbered(s)
    ensures Numbered(Sections(s)[0])
  {
    var k := FindBreak(s, 0);
    assert !BreakAt(s, 0) && !BreakAt(s, 1);
    if k < |s| {
      assert Sections(s)[0] == s[..k];
    }
  }

  /** The sections have the shape of a correct cut. */
  lemma {:induction false} SectionsWellCut(s: JsString)
    ensures WellCut(Sections(s))
    decreases |s|
  {
    var k := FindBreak(s, 0);
    if k < |s| {
      var head := s[..k];
      var rest := s[k + 1..];
      SectionsWellCut(rest);
      forall j | BreakAt(head, j)
        ensures false
      {
        assert BreakAt(s, j);
      }
      FirstSectionNumbered(rest);
      var r := Sections(s);
      assert r == [head] + Sections(rest);
      forall m, j | 0 <= m < |r| && 0 <= j < |r[m]|
        ensures !BreakAt(r[m], j)
      {
        if m > 0 {
          assert r[m] == Sections(rest)[m - 1];
        }
      }
      forall m | 1 <= m < |r|
        ensures Numbered(r[m])
      {
        assert r[m] == Sections(rest)[m - 1];
      }
    }
  }

  /** Joining the sections with "\n" gives back the text: the only units
      the split drops are the matched newlines. */
  lemma {:induction false} JoinSections(s: JsString)
    ensures Join(Sections(s), [NL]) == s
    decreases |s|
  {
    var k := FindBreak(s, 0);
    if k < |s| {
      var rest := s[k + 1..];
      JoinSections(rest);
      assert Sections(s) == [s[..k]] + Sections(rest);
      assert s == s[..k] + [NL] + rest;
    }
  }

  /** A text cut into well-shaped pieces is cut by `Sections` at exactly
      those places. */
  lemma {:induction false} SectionsOfJoin(parts: seq<JsString>)
    requires WellCut(parts)
    ensures Sections(Join(parts, [NL])) == parts
    decreases |parts|
  {
    var a := parts[0];
    if |parts| == 1 {
      assert forall j :: 0 <= j < |a| ==> !BreakAt(a, j);
    } else {
      var tail := Join(parts[1..], [NL]);
      assert Join(parts, [NL]) == a + [NL] + tail;
      JoinStartsWithFirst(parts[1..]);
      WellCutTail(parts);
      SplitAtHeading(a, tail);
      SectionsOfJoin(parts[1..]);
      assert parts == [a] + parts[1..];
    }
  }

  /** Dropping the first piece of a correct cut leaves a correct cut. */
  lemma WellCutTail(parts: seq<JsString>)
    requires WellCut(parts) && |parts| >= 2
    ensures WellCut(parts[1..])
  {
    forall m, j | 0 <= m < |parts[1..]| && 0 <= j < |parts[1..][m]|
      ensures !BreakAt(parts[1..][m], j)
    {
      assert parts[1..][m] == parts[m + 1];
    }
  }

  /** A piece without a match, a newline and a numbered rest: the first
      match is that newline, so the split takes off exactly the piece. */
  lemma SplitAtHeading(a: JsString, tail: JsString)
    requires forall j :: 0 <= j < |a| ==> !BreakAt(a, j)
    requires Numbered(tail)
    ensures Sections(a + [NL] + tail) == [a] + Sections(tail)
  {
    var s := a + [NL] + tail;
    assert s[..|a|] == a;
    assert s[|a| + 1..] == tail;
    forall j | 0 <= j < |a|
      ensures !BreakAt(s, j)
    {
      if j + 2 < |a| {
        assert !BreakAt(a, j);
      }
    }
    FindBreakIs(s, |a|);
  }

  /** Joined pieces start with the first piece's heading. */
  lemma JoinStartsWithFirst(parts: seq<JsString>)
    requires |parts| >= 1 && Numbered(parts[0])
    ensures Numbered(Join(parts, [NL]))
    ensures Join(parts, [NL])[..2] == parts[0][..2]
  {
    if |parts| > 1 {
      assert Join(parts, [NL]) == parts[0] + ([NL] + Join(parts[1..], [NL]));
    }
  }

  /** The split is the unique cut of the text into well-shaped pieces. */
  lemma SectionsUnique(s: JsString, parts: seq<JsString>)
    ensures Sections(s) == parts <==> WellCut(parts) && Join(parts, [NL]) == s
  {
    SectionsWellCut(s);
    JoinSections(s);
    if WellCut(parts) && Join(parts, [NL]) == s {
      SectionsOfJoin(parts);
    }
  }

  /** `lines[0]` of `section.split('\n')`. */
  function Title(section: JsString): JsString {
    SplitOn(section, NL)[0]
  }

  /** `lines.slice(1).join('\n')`. */
  function Content(section: JsString): JsString {
    Join(SplitOn(section, NL)[1..], [NL])
  }

  /** The title is the text before the first newline (all of it when there is
      none) and has no newline; the content is everything after that newline. */
  lemma TitleAndContent(section: JsString)
    ensures NL !in Title(section)
    ensures NL !in section ==> Title(section) == section && Content(section) == []
    ensures NL in section ==> section == Title(section) + [NL] + Content(section)
    ensures Title(section) == section[..IndexOf(section, NL)]
  {
    var k := IndexOf(section, NL);
    if k < |section| {
      CutAtFirstNewline(section, k);
    } else {
      assert SplitOn(section, NL) == [section];
      assert section[..k] == section;
    }
  }

  /** A section with a newline is its title, that newline and its content. */
  lemma CutAtFirstNewline(section: JsString, k: nat)
    requires k == IndexOf(section, NL) && k < |section|
    ensures Title(section) == section[..k]
    ensures section == Title(section) + [NL] + Content(section)
  {
    var p := SplitOn(section, NL);
    SplitOnUnfold(section, NL);
    JoinSplitOn(section, NL);
    JoinCons(p[0], p[1..], [NL]);
    ConsDrop(p);
  }

  /** Open tag of a section block. */
  function OpenSection(): JsString {
    Bmp("<div class=\"recipe-section\">")
  }

  function OpenTitle(): JsString {
    Bmp("<h3 class=\"section-title\">")
  }

  function CloseTitle(): JsString {
    Bmp("</h3>")
  }

  function OpenContent(): JsString {
    Bmp("<div class=\"section-content\">")
  }

  function CloseDiv(): JsString {
    Bmp("</div>")
  }

  /** A line break of the template followed by `n` spaces of indentation. */
  function Indent(n: nat): (r: JsString)
    ensures |r| == n + 1 && r[0] == NL
  {
    [NL] + Spaces(n)
  }

  /** The template literal for one section, written with its closing backtick
      at column `b`: the outer `div` lines sit at `b + 4`, the inner lines at
      `b + 8`. */
  function Block(b: nat, title: JsString, content: JsString): JsString {
    Indent(b + 4) + OpenSection()
    + Indent(b + 8) + (OpenTitle() + title + CloseTitle())
    + Indent(b + 8) + (OpenContent() + content + CloseDiv())
    + Indent(b + 4) + CloseDiv()
    + Indent(b)
  }

  /** Every indentation run of a block lies in whitespace: with the spaces
      removed, a block no longer depends on its indentation. */
  lemma BlockWithoutSpaces(b: nat, title: JsString, content: JsString)
    ensures WithoutSpaces(Block(b, title, content)) ==
      [NL] + WithoutSpaces(OpenSection())
      + [NL] + WithoutSpaces(OpenTitle() + title + CloseTitle())
      + [NL] + WithoutSpaces(OpenContent() + content + CloseDiv())
      + [NL] + WithoutSpaces(CloseDiv())
      + [NL]
  {
    var t := OpenTitle() + title + CloseTitle();
    var c := OpenContent() + content + CloseDiv();
    var p1 := Indent(b + 4) + OpenSection();
    var p2 := p1 + Indent(b + 8) + t;
    var p3 := p2 + Indent(b + 8) + c;
    var p4 := p3 + Indent(b + 4) + CloseDiv();
    IndentWithoutSpaces(b + 4);
    IndentWithoutSpaces(b + 8);
    IndentWithoutSpaces(b);
    FilterConcat(Indent(b + 4), OpenSection(), NotSpace);
    FilterConcat(p1, Indent(b + 8), NotSpace);
    FilterConcat(p1 + Indent(b + 8), t, NotSpace);
    FilterConcat(p2, Indent(b + 8), NotSpace);
    FilterConcat(p2 + Indent(b + 8), c, NotSpace);
    FilterConcat(p3, Indent(b + 4), NotSpace);
    FilterConcat(p3 + Indent(b + 4), CloseDiv(), NotSpace);
    FilterConcat(p4, Indent(b), NotSpace);
  }

  lemma IndentWithoutSpaces(n: nat)
    ensures WithoutSpaces(Indent(n)) == [NL]
  {
    FilterConcat([NL], Spaces(n), NotSpace);
    SpacesVanish(n);
  }

  /** Moving the template four columns to the right adds four spaces to each
      of its five indented lines. */
  lemma BlockShift(b: nat, title: JsString, content: JsString)
    ensures |Block(b + 4, title, content)| == |Block(b, title, content)| + 20
  {
  }

  /** One block per section, in the order of the sections. */
  function Blocks(b: nat, sections: seq<JsString>): (r: seq<JsString>)
    ensures |r| == |sections|
    ensures forall k :: 0 <= k < |r| ==> r[k] == Block(b, Title(sections[k]), Content(sections[k]))
  {
    seq(|sections|, k requires 0 <= k < |sections| => Block(b, Title(sections[k]), Content(sections[k])))
  }

  /** `formatRecipe` with its template at column `b`: the blocks joined with
      no separator (`.join('')`). */
  function Format(b: nat, text: JsString): JsString {
    Flatten(Blocks(b, Sections(text)))
  }

  /** The copy in script.js: template closing at column 8. */
  function FormatOnGeneratorPage(text: JsString): JsString {
    Format(8, text)
  }

  /** The copy in recipes.js: template closing at column 12. */
  function FormatOnSavedPage(text: JsString): JsString {
    Format(12, text)
  }

  /** The output is the blocks of a well-shaped cut, in order: for a text put
      together from well-shaped pieces, one block per piece, titled by the
      piece's first line. */
  lemma FormatOfPieces(b: nat, parts: seq<JsString>)
    requires WellCut(parts)
    ensures Format(b, Join(parts, [NL])) == Flatten(Blocks(b, parts))
    ensures |Blocks(b, parts)| == |parts|
  {
    SectionsOfJoin(parts);
  }

  /** The two copies agree once spaces are removed ... */
  lemma FormatCopiesAgreeUpToSpaces(text: JsString)
    ensures WithoutSpaces(FormatOnGeneratorPage(text)) == WithoutSpaces(FormatOnSavedPage(text))
  {
    var secs := Sections(text);
    var ps := Blocks(8, secs);
    var qs := Blocks(12, secs);
    forall k | 0 <= k < |ps|
      ensures Filter(ps[k], NotSpace) == Filter(qs[k], NotSpace)
    {
      BlockWithoutSpaces(8, Title(secs[k]), Content(secs[k]));
      BlockWithoutSpaces(12, Title(secs[k]), Content(secs[k]));
    }
    FilterFlattenPointwise(ps, qs, NotSpace);
  }

  /** ... but the saved-recipes copy is 20 units longer per section, so the two
      never produce the same text. */
  lemma FormatCopiesDiffer(text: JsString)
    ensures |FormatOnSavedPage(text)| == |FormatOnGeneratorPage(text)| + 20 * |Sections(text)|
    ensures FormatOnSavedPage(text) != FormatOnGeneratorPage(text)
  {
    var secs := Sections(text);
    var ps := Blocks(8, secs);
    var qs := Blocks(12, secs);
    forall k | 0 <= k < |ps|
      ensures |qs[k]| == |ps[k]| + 20
    {
      BlockShift(8, Title(secs[k]), Content(secs[k]));
    }
    FlattenLengthShift(ps, qs, 20);
  }

  /** The headings of the sample recipe the offline mock server answers
      with, as the five-section answer format asks for them. */
  function MockHeading(k: nat): (h: JsString)
    requires k < 5
  {
    match k
    case 0 => Bmp("1) Förslag på rätt:")
    case 1 => Bmp("2) Gör såhär:")
    case 2 => Bmp("3) Ingredienser du har:")
    case 3 => Bmp("4) Har du?:")
    case 4 => Bmp("5) Longevity-fördelar:")
  }

  /** A body as in the sample: empty, or lines that each start after a
      newline, none of them beginning with a digit and `)`. */
  predicate SampleBody(body: JsString) {
    && (body == [] || body[0] == NL)
    && (forall j :: 0 <= j < |body| ==> !BreakAt(body, j))
  }

  /** The sample recipe, with each heading followed by its body and the
      sections separated by a newline. */
  function MockRecipe(bodies: seq<JsString>): JsString
    requires |bodies| == 5
  {
    Join(seq(5, k requires 0 <= k < 5 => MockHeading(k) + bodies[k]), [NL])
  }

  lemma MockHeadingShape(k: nat)
    requires k < 5
    ensures Numbered(MockHeading(k)) && MockHeading(k)[0] == 0x31 + k
    ensures NL !in MockHeading(k)
  {
    if k == 0 { MockHeading0Shape(); }
    else if k == 1 { MockHeading1Shape(); }
    else if k == 2 { MockHeading2Shape(); }
    else if k == 3 { MockHeading3Shape(); }
    else { MockHeading4Shape(); }
  }

  lemma MockHeading0Shape()
    ensures Numbered(MockHeading(0)) && MockHeading(0)[0] == 0x31 && NL !in MockHeading(0)
  {
    HeadingShape("1) Förslag på rätt:");
  }

  lemma MockHeading1Shape()
    ensures Numbered(MockHeading(1)) && MockHeading(1)[0] == 0x32 && NL !in MockHeading(1)
  {
    HeadingShape("2) Gör såhär:");
  }

  lemma MockHeading2Shape()
    ensures Numbered(MockHeading(2)) && MockHeading(2)[0] == 0x33 && NL !in MockHeading(2)
  {
    HeadingShape("3) Ingredienser du har:");
  }

  lemma MockHeading3Shape()
    ensures Numbered(MockHeading(3)) && MockHeading(3)[0] == 0x34 && NL !in MockHeading(3)
  {
    HeadingShape("4) Har du?:");
  }

  lemma MockHeading4Shape()
    ensures Numbered(MockHeading(4)) && MockHeading(4)[0] == 0x35 && NL !in MockHeading(4)
  {
    HeadingShape("5) Longevity-fördelar:");
  }

  lemma HeadingShape(h: string)
    requires |h| >= 2 && '0' <= h[0] <= '9' && h[1] == ')' && '\n' !in h
    ensures IsBmp(h) ==> Numbered(Bmp(h)) && Bmp(h)[0] == h[0] as int && NL !in Bmp(h)
  {
    if IsBmp(h) {
      var u := Bmp(h);
      forall i | 0 <= i < |u|
        ensures u[i] != NL
      {
        assert u[i] == h[i] as int;
      }
    }
  }

  /** A heading line followed by a sample body is one section titled by the
      heading. */
  lemma HeadedPiece(h: JsString, body: JsString)
    requires NL !in h && SampleBody(body)
    ensures forall j :: 0 <= j < |h + body| ==> !BreakAt(h + body, j)
    ensures Title(h + body) == h
  {
    var p := h + body;
    forall j | 0 <= j < |p|
      ensures !BreakAt(p, j)
    {
      if j < |h| {
        assert p[j] == h[j];
      } else {
        assert !BreakAt(body, j - |h|);
      }
    }
    TitleAndContent(p);
    if body == [] {
      assert p == h;
      assert IndexOf(p, NL) == |h|;
    } else {
      IndexOfPrefix(h, NL, body);
    }
    assert p[..|h|] == h;
  }

  /** The sample splits into exactly five sections, titled `1) ...` to
      `5) ...` in that order, whatever the lines under each heading say, as
      long as none of them starts with a digit and `)`. */
  lemma MockRecipeSections(bodies: seq<JsString>)
    requires |bodies| == 5
    requires forall k :: 0 <= k < 5 ==> SampleBody(bodies[k])
    ensures |Sections(MockRecipe(bodies))| == 5
    ensures forall k :: 0 <= k < 5 ==> Title(Sections(MockRecipe(bodies))[k]) == MockHeading(k)
  {
    var parts := seq(5, k requires 0 <= k < 5 => MockHeading(k) + bodies[k]);
    forall k | 0 <= k < 5
      ensures forall j :: 0 <= j < |parts[k]| ==> !BreakAt(parts[k], j)
      ensures Title(parts[k]) == MockHeading(k)
      ensures Numbered(parts[k])
    {
      MockHeadingShape(k);
      HeadedPiece(MockHeading(k), bodies[k]);
    }
    SectionsOfJoin(parts);
  }
}
