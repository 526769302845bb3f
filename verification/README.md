# Longevity recipe generator — a Dafny model of its core

The system generates "longevity" recipes in Swedish. A user uploads either a
text file listing the food they have (choice "1") or a photo of their fridge
(choice "2"), together with difficulty, meal type, number of people and
optional cuisine and diet preferences. The backend turns a photo into an
ingredient listing with a vision model, fills a fixed prompt template and
returns the text model's answer as `{"recipe": ...}`. There are two backends:
the stand-alone API server (`api.py`) and the all-in-one launcher
(`all_in_one.py`). A setup script (`setup.py`) creates `.env` and asks for
the OpenAI key. Three browser scripts show the result:

- `script.js`: the generator page;
- `recipes.js`: recipes saved in the browser;
- `library_browse.js`: text files served by the backend.

Each module of the model follows one part of that program:

| module | file | models |
|---|---|---|
| `Handler` | handler.dfy | `generate_recipe` of both servers. The model provider is an input function from a call to its reply. |
| `Prompt` | prompt.dfy | the f-string prompt shared by both servers |
| `Utf8` | utf8.dfy | strict UTF-8 decoding of a text upload (`bytes.decode("utf-8")`) and its inverse |
| `Base64` | base64.dfy | `base64.b64encode` of an image upload and the `data:` URL around it, with a decoder as its inverse |
| `Setup` | setup.dfy | `create_env_file`, `check_api_key`, the key rewrite and the yes/no prompts of `setup.py`; the start-up check of `all_in_one.py` |
| `RecipeFormat` | recipe_format.dfy | `formatRecipe`: the split into numbered sections and the HTML blocks (two copies, in `script.js` and `recipes.js`) |
| `SavedRecipes` | saved_recipes.dfy | the saved-recipes page: newest-first list, detail view, download file name |
| `Library` | library.dfy | the library page: list, detail title, download link |
| `GeneratorPage` | generator_page.dfy | the file filter the choice select sets, and how the answer of `/generate` is shown |
| `Seqs`, `PyText`, `JsText`, `Options` | seqs.dfy, pytext.dfy, jstext.dfy, options.dfy | shared vocabulary: `Flatten`, `Join`, `split`; Python's `strip`, `lower` and line reading; JavaScript strings as UTF-16 code units |

Conventions:

- Python strings are Dafny `string`s and bytes are `seq<byte>`.
- JavaScript strings are sequences of UTF-16 code units (`JsString`).
- A missing file, an unset variable or a failed request is `None`.

## Model

| member | source | states |
|---|---|---|
| Handler.Generate | api.py:54-152 | Every failure the handler returns has status 500. A recipe is exactly the completion of the last call, which is a text call to the variant's model. A failure after a model call carries that call's exception text. At most two model calls are made, and the first of two was answered. The text call carries the request's parameters. After a vision call, its listing is the vision model's completion. |
| Handler.UnknownChoiceFails | api.py:96-97 | A choice other than "1" or "2" makes no model call and answers 500 with detail "400: Ogiltigt val". |
| Handler.InvalidChoiceText | api.py:151-152 | `str()` of the handler's own 400 shows the inner status code in the 500's detail. |
| Handler.NotTextText | api.py:63-64 | The text of the not-a-text-file exception as the client sees it. |
| Handler.MissingKeyText | all_in_one.py:119-121 | The text of the missing-key exception as the client sees it. |
| Handler.TextMode | api.py:60-64 | In text mode, bytes that are not well-formed UTF-8 fail with the not-a-text-file message before any model call. Well-formed bytes lead to exactly one text call carrying their decoding. |
| Handler.ImageMode | all_in_one.py:118-182 | The all-in-one server with an unset or empty key fails before any call. Otherwise the first call is the vision call with the encoded image. When it answers, the only other call is the text call with the request's parameters and that answer as the listing. When it raises, the request fails with that exception's text after this one call. |
| Handler.TextListingVerbatim | api.py:136-138 | In text mode the listing in the prompt re-encodes to exactly the uploaded bytes, and the prompt ends with the listing header, the listing and a newline. |
| Handler.ApiImageUrl | api.py:66-90 | The API server's image URL is `data:image/jpeg;base64,` plus 4·⌈n/3⌉ base64 characters that decode back to exactly the upload. |
| Handler.SamePrompt | all_in_one.py:145-183 | In text mode both servers send the same parameters and the same listing to the template. |
| Handler.VariantsAgree | all_in_one.py:106-197 | If the providers answer alike, both servers give the same response and make the same number of calls. The one exception is image mode on the all-in-one server without a key, which fails. |
| Handler.ApiGenerate | api.py:66-147 | A photo is sent first to `gpt-4o` with the fixed instruction, the `data:` URL of the upload and a 500-token limit. A recipe comes from `gpt-4-turbo`. |
| Handler.AllInOneGenerate | all_in_one.py:118-192 | Without a non-empty key a photo answers 500 with detail "500: OpenAI API-nyckel saknas" and no model call. Otherwise the photo goes first to `gpt-4` as bare base64 text with no token limit. A recipe comes from `gpt-4`. |
| Prompt.Build | api.py:100-138 | The prompt starts with the instruction block and ends with the listing header, the listing verbatim and a newline. |
| Prompt.PromptLines | api.py:100-106 | For single-line parameters, read line by line, the prompt opens with an empty line and the instruction sentence. Then come the five parameter lines in the order difficulty, meal type, people, cuisine, diet. |
| Prompt.BuildInjective | api.py:100-138 | For single-line parameters, different parameters or listings never give the same prompt. |
| Utf8.DecodeSucceedsIffValid | api.py:60-64 | Decoding succeeds exactly on well-formed UTF-8: no overlong forms, no surrogates, nothing above U+10FFFF, no truncated sequence. |
| Utf8.DecodeEncode | all_in_one.py:112-116 | Decoding the encoding of any text gives that text back. |
| Utf8.EncodeDecode | all_in_one.py:112-116 | Every byte string that decodes is the encoding of its decoding. |
| Utf8.EncodeValid | api.py:62 | The encoding of any text is well-formed. |
| Utf8.ByteOrderMarkKept | api.py:62 | A leading byte-order mark is not stripped: it decodes to U+FEFF in front of the rest. |
| Base64.Encode | api.py:68 | The encoding has 4·⌈n/3⌉ characters. |
| Base64.EncodePadded | all_in_one.py:124 | Every character is in the standard alphabet except the trailing `=` padding, and there are (3 − n mod 3) mod 3 pad characters. |
| Base64.DecodeEncode | api.py:68 | Decoding the encoding of any bytes gives those bytes back. |
| Base64.EncodeDecode | api.py:68 | Every string that decodes is the encoding of its decoding, so the encoding is canonical. |
| Base64.EncodeTestVectors | api.py:68 | The encodings of "f", "fo", "foo" and "foobar" are the test vectors of section 10 of RFC 4648. |
| Base64.DataUrl | api.py:84 | The URL is the 23-character JPEG data prefix followed by a payload that decodes to the upload. |
| Setup.KeyOf | setup.py:48 | A value exists exactly when the stripped line contains `=`. It is everything after the first `=` of the stripped line, later `=` signs included. |
| Setup.FindKeyLine | setup.py:45-51 | The loop reports true exactly when some line starts with `OPENAI_API_KEY=` and has a value that is neither empty nor the placeholder. |
| Setup.CheckApiKey | setup.py:39-51 | A missing `.env` has no key; otherwise the result is true exactly when some line of the file holds a usable key. |
| Setup.UsableKeyLineIff | setup.py:47-49 | A line `OPENAI_API_KEY=<rest>` is accepted exactly when `<rest>` without trailing whitespace is non-empty and not the placeholder. |
| Setup.CreateEnvFile | setup.py:17-37 | An existing `.env` is kept. Otherwise `env.example` is copied. With neither file, the four default writes are the text. |
| Setup.DefaultEnvLines | setup.py:31-35 | The written default file reads as five lines: the comment, the placeholder key line, an empty line, the server comment, `PORT=8000`. |
| Setup.DefaultEnvHasNoKey | setup.py:31-35 | The default file never passes the key check. |
| Setup.CreatedEnvNeedsKey | setup.py:17-51 | After `create_env_file` the check succeeds exactly when an existing `.env` or the copied example held a usable key. |
| Setup.RewriteKey | setup.py:201-206 | Same number of lines. Each line starting with the key prefix is replaced by the new key line and every other line is copied unchanged. |
| Setup.KeyLineUsable | setup.py:204 | A written key line is accepted exactly when the key without trailing whitespace is non-empty and not the placeholder. |
| Setup.ConfigureKeyLines | setup.py:197-206 | For a key without a newline, the rewritten file reads back as the rewritten line list. |
| Setup.ConfigureKeyEnables | setup.py:197-206 | When the file has a key line, a valid typed key makes the key check succeed, and only a valid one does. |
| Setup.ConfigureKeyWithoutKeyLine | setup.py:202-206 | When the file has no key line, the rewrite leaves it unchanged and the check still fails. |
| Setup.KeyDroppedExample | setup.py:189-212 | For the file `PORT=8000\n` and the key `sk-abc`, the written file has no usable key. With that file copied from the example and the answer `j`, the script goes on with the file unchanged. |
| Setup.ConfigureKeyOrAppendEnables | setup.py:197-206 | With the corrected rewrite, a valid typed key always makes the check succeed. |
| Setup.IsYesShape | setup.py:195-196 | An accepted answer has 1 to 3 characters, starts with j or y in either case and contains no whitespace. |
| Setup.IsYesAnyCase | setup.py:215-216 | Each of j, ja, y and yes is accepted in small and in capital letters. |
| Setup.SetupKeyOutcome | setup.py:189-210 | The script stops exactly when there is no usable key and the answer is not a yes. A usable key is left alone. After a yes, the file ends with a usable key exactly when it had a key line and the typed key is valid. |
| Setup.SetupKeyIntendedOutcome | setup.py:189-210 | With the corrected rewrite, the script stops in the same cases, and every run that goes on with a valid typed key ends with a key the check accepts. |
| Setup.FreshSetupAsks | setup.py:17-210 | From nothing, the script goes on exactly after a yes. There the script as written and the corrected one give the same file. |
| Setup.StartUpEnvFile | all_in_one.py:38-53 | The launcher never overwrites `.env`. It copies the example exactly when the key is missing, the example exists and `.env` does not. |
| Setup.StartUpProceeds | all_in_one.py:38-56 | The launcher goes on exactly when the key is set and non-empty, or the answer is a yes. |
| RecipeFormat.FindBreak | script.js:69 | The split point found is the first newline followed by a digit and `)`. |
| RecipeFormat.SectionsWellCut | script.js:69 | The sections contain no split point, and every section after the first starts with a digit and `)`. |
| RecipeFormat.JoinSections | script.js:69 | Joining the sections with newlines gives back the recipe text. |
| RecipeFormat.SectionsOfJoin | recipes.js:109 | Well-cut pieces joined with newlines split back into the same pieces. |
| RecipeFormat.SectionsUnique | script.js:69 | The sections are the only well-cut list that joins to the text. |
| RecipeFormat.FirstSectionNumbered | script.js:69 | A text that starts with a numbered heading has a numbered first section. |
| Seqs.SplitOnPieces | script.js:73 | No piece of `split('\n')` contains a newline. |
| Seqs.JoinSplitOn | script.js:73-75 | Joining the pieces of `split('\n')` with newlines gives back the section. |
| Seqs.SplitOnJoin | script.js:73 | Pieces free of newlines, joined with newlines, split back into the same pieces. |
| RecipeFormat.TitleAndContent | script.js:73-75 | The title is the section up to its first newline. The section is the title, a newline and the content, or the title alone when there is no newline. |
| RecipeFormat.FormatOfPieces | script.js:67-84 | Formatting a text joined from well-cut pieces is the concatenation of one block per piece. |
| RecipeFormat.FormatCopiesAgreeUpToSpaces | recipes.js:107-124 | The two copies of `formatRecipe` produce the same HTML once spaces are removed. |
| RecipeFormat.FormatCopiesDiffer | recipes.js:117-122 | The saved-recipes copy is 20 code units longer per section, so its output is never equal to the generator page's. |
| RecipeFormat.MockRecipeSections | mock_api.js:22-49 | A recipe shaped like the sample answer splits into its five numbered sections, titled by the five headings. |
| SavedRecipes.Sanitize | recipes.js:31 | Same length. Allowed letters and digits are kept and every other code unit becomes `_`. |
| SavedRecipes.FileName | recipes.js:31 | The file name is the sanitised title followed by `.txt`. |
| SavedRecipes.SanitizeIdempotent | recipes.js:31 | Sanitising twice is sanitising once. |
| SavedRecipes.SanitizeKeepsAllowed | recipes.js:31 | A title of allowed characters is its own file stem. |
| SavedRecipes.SanitizeSurrogatePair | recipes.js:31 | A character outside the Basic Multilingual Plane becomes two underscores. |
| SavedRecipes.DownloadViewed | recipes.js:21-40 | Nothing is downloaded without a viewed recipe with non-empty content. Otherwise the body is the content and the name is the sanitised title followed by `.txt`. |
| SavedRecipes.InsertNewestOrdered | recipes.js:57 | Inserting into a newest-first list keeps it newest first. |
| SavedRecipes.InsertNewestMultiset | recipes.js:57 | Inserting adds exactly the one recipe. |
| SavedRecipes.SortNewestCorrect | recipes.js:57 | The sorted list is newest first and a permutation of the stored one. |
| SavedRecipes.SortNewestStable | recipes.js:57 | Recipes of the same date keep their stored order. |
| SavedRecipes.OrElse | recipes.js:68-69 | A missing or empty meta field shows its placeholder; any other value is shown as is. |
| SavedRecipes.MissingMetaShowsPlaceholders | recipes.js:61-69 | A recipe without meta shows both placeholders. |
| SavedRecipes.LoadListShape | recipes.js:43-75 | The empty state appears exactly for an empty store. Otherwise the cards are newest first, and each stored recipe's card appears exactly as often as the recipe is stored. |
| SavedRecipes.SortNewestCards | recipes.js:57-75 | Sorting before mapping to cards keeps the multiset of cards of the stored list. |
| SavedRecipes.FindById | recipes.js:88 | The result is the first stored recipe with the id, or nothing exactly when no recipe has it. |
| SavedRecipes.ShowDetails | recipes.js:86-104 | An unknown id changes nothing. A known id shows the first recipe with it, formatted by the saved-page copy, and remembers it as viewed. |
| SavedRecipes.ShowThenDownload | recipes.js:21-104 | After showing a known id, a download is offered exactly when the first recipe with that id has content. |
| Library.RecipeUrl | library_browse.js:32 | The file's address starts with `/api/library/recipes/` and continues with exactly the id. |
| Library.Search | library_browse.js:114 | The first occurrence of the pattern at or after the start, or the end of the text when there is none. |
| Library.Respace | library_browse.js:114 | Same length; every underscore becomes a space and nothing else changes. |
| Library.DetailTitleRemovesFirst | library_browse.js:114 | Only the first `.txt` is removed. The text around it stays, respaced, four units shorter. |
| Library.DetailTitleWithoutTxt | library_browse.js:114 | A file name without `.txt` is only respaced. |
| Library.DetailTitleOfTxtFile | library_browse.js:114 | For `<stem>.txt` with no `.txt` in the stem, the title is the stem with underscores as spaces. |
| Library.ShowDetails | library_browse.js:96-124 | A failed read changes nothing. A successful one shows the derived title and the text and remembers the id and file name. |
| Library.DownloadLink | library_browse.js:21-35 | There is no link without a non-empty id. Otherwise the link targets the id's file and is saved under the file name, or `<id>.txt` when the name is empty. |
| Library.DownloadMatchesDetail | library_browse.js:21-111 | After a successful detail view, the download fetches the same file the view read. |
| Library.LoadLibrary | library_browse.js:38-94 | A failed request shows the error state and an empty list shows the empty state. Otherwise there is one card per entry, in the server's order, carrying its id, file name and title. |
| Library.CardOpensItsFile | library_browse.js:59-124 | Clicking a card reads the URL of that entry's id, shows the title derived from its file name, and remembers that entry's id and file name for the download. |
| GeneratorPage.OnChoiceChangeCases | script.js:56-63 | Choice "1" offers `.txt`, choice "2" offers the image types, and any other value leaves the filter alone. |
| GeneratorPage.OnChoiceChangeForgets | script.js:56-63 | For a served choice only the last change counts, and repeating a change alters nothing. |
| GeneratorPage.ChoiceFromFilter | script.js:56-63 | After a change to "1" or "2", the filter set tells which of the two was chosen. |
| JsText.Utf16 | script.js:28 | The recipe text `response.json()` yields has one code unit per character plus one per character outside the Basic Multilingual Plane. |
| GeneratorPage.GeneratedDisplay | script.js:24-36 | The page formats exactly the non-empty recipes the endpoint returns, from their UTF-16 text. Every failure of the handler shows as status 500. |
| GeneratorPage.BmpRecipeDisplay | script.js:28-32 | A recipe in the Basic Multilingual Plane reaches `formatRecipe` one code unit per character, and its sections join back to that text. |

## Left out

- The OpenAI calls are left out. The provider is an input function, so every reply, error and model behaviour is allowed. `response.choices[0].message.content` is taken to be a string.
- FastAPI routing, multipart parsing and the CORS setup are left out. A request is its five form fields and the uploaded bytes.
- FastAPI's request validation is left out. `choice`, `file`, `difficulty`, `meal_type` and `num_people` are required (`Form(...)`/`File(...)`, api.py:35-39 and all_in_one.py:98-102). A request missing one of them is answered 422 by FastAPI before the handler runs. Depending on the FastAPI version, an empty form string may count as missing too. In that case `choice=""` gets 422, not the 500 of `Handler.UnknownChoiceFails`. The model starts at the handler with all fields present.
- Handler.Str: `str()` of an `HTTPException` is taken to be "<status>: <detail>". That is the `__str__` of recent Starlette releases. Other releases print differently: older ones, whose `HTTPException` has no `__str__` and is built from keyword arguments, print an empty string. The detail texts the client sees depend on that version.
- The optional form fields: `None` for `cuisine_pref`/`dietary_pref` (Python would print `None`) is not modelled. They default to "" as the form declares.
- `serve.py`, the static file server and the library endpoints of the backend are not part of this model. The library page takes their answers as inputs.
- The threads, `uvicorn`, the browser launch, `subprocess`/`pip` installation and `create_test_files` of the launchers are left out: they are process control and I/O only.
- `.env` loading (`load_dotenv`), `PORT` parsing and the `sys.exit` are left out. The launcher's key is an input, and "exit" is `proceeds == false`.
- Setup.CheckApiKey: `.env` is taken as already-decoded text. setup.py:45 and :198 open it with strict `encoding='utf-8'`, and setup.py:26 copies `env.example` byte for byte. A `.env` that is not well-formed UTF-8 makes `check_api_key` raise `UnicodeDecodeError`, and the script stops with a traceback. An example is the placeholder line saved as Latin-1. Neither `Setup.CheckApiKey` nor `Setup.SetupKey` models that failure.
- Python's universal-newline translation when reading `.env` is not modelled: `\r\n` stays two characters.
- PyText.Lower: lower-cases ASCII letters only. No other character lowercases to one of `j`, `a`, `y`, `e`, `s`, so the yes test is unaffected.
- The DOM, `fetch`, `localStorage`/`sessionStorage`, `Blob` and the `alert`s are left out. Stored items are inputs already parsed from JSON.
- The loading indicator, the `FormData` and the network error of the generator page's submit handler are left out. The model starts from the endpoint's response.
- Dates: a stored recipe's date is an integer timestamp. Invalid dates (`NaN`, which makes the comparator inconsistent) and the locale formatting are not modelled. Neither is the library's KB size text.
- Library.CardOpensItsFile: an entry's `id` and `filename` are taken to survive the HTML attribute round trip. library_browse.js:64 writes them unescaped into `data-id="…"`/`data-filename="…"` through `innerHTML`, and library_browse.js:79-80 reads them back with `getAttribute`. The lemma describes the browser only for values with no `"`, no `&` character reference, no CR and no NUL. For other values the browser reads back a different string, and the click fetches another URL and remembers another file name. The saved page's `data-id` (recipes.js:64 and :80) is taken the same way, and card titles are treated as text, not as HTML.
- Recipe ids are strings. A numeric `id` in storage would never match the card's `data-id` string under `===`, and that case is not modelled.
- The HTML in `formatRecipe` is not escaped by the program. The model keeps the text as it is and does not model the browser's parsing.
- The test scripts (`test_script.py`, `test_vision.py`, `test_vision_fixed.py`) are left out: they call the running servers.

## Findings

| source | as written | input that shows it | evidently intended | confidence | as-written member | corrected member |
|---|---|---|---|---|---|---|
| setup.py:197-206 | The typed key is written only over an existing `OPENAI_API_KEY=` line, and a `.env` without one is written back unchanged. The script still reports the key as configured. | `.env` is `PORT=8000\n` and the key is `sk-abc` | Write the key into `.env`, appending a key line when there is none | medium, not executed | Setup.KeyDroppedExample | Setup.ConfigureKeyOrAppendEnables |

`Setup.SetupKey` is the script as written, and `Setup.SetupKeyOutcome` shows
that a run can go on without a usable key. `Setup.SetupKeyIntended` uses the
corrected rewrite `Setup.ConfigureKeyOrAppend`, which appends a key line where
the file has none. `Setup.FreshSetupAsks` proves the two agree when setup
starts from nothing.
