/** The `/generate` endpoint, in both of its implementations: the stand-alone
    API server (api.py) and the API server embedded in the all-in-one launcher
    (all_in_one.py). Both read the upload, turn it into an ingredient listing
    (directly for a text file, through a vision model for a photo), compose the
    prompt and return the text model's answer. The two model providers are an
    oracle `Provider`; every call made to it is recorded, so "no model call"
    means an empty trace. */
module Handler {
  import opened Options
  import opened Utf8
  import Base64
  import opened PyText
  import opened Prompt

  /** The multipart form: the choice, the raw bytes of the uploaded file and
      the five parameters, the last two optional. */
  datatype Request = Request(
    choice: string,
    upload: seq<byte>,
    difficulty: string,
    mealType: string,
    numPeople: string,
    cuisine: Option<string>,
    dietary: Option<string>)

  /** The template parameters of a request; an absent optional field is "". */
  function ParamsOf(req: Request): Params {
    Params(req.difficulty, req.mealType, req.numPeople, req.cuisine.GetOr(""), req.dietary.GetOr(""))
  }

  /** A request to a model provider: the image analysis, or the recipe text.
      A text call records the inputs of the prompt template; the text sent to
      the model is `Prompt()`. */
  datatype Call =
    | Vision(model: string, instruction: string, image: string, maxTokens: Option<nat>)
    | Text(model: string, params: Params, listing: string)
  {
    function Prompt(): string
      requires Text?
    {
      Build(params, listing)
    }
  }

  /** What a provider does with a call: answer with message content, or raise
      an exception whose `str` is `message`. */
  datatype Reply = Completion(content: string) | Raised(message: string)

  type Provider = Call -> Reply

  datatype Status = BadRequest | ServerError {
    function Code(): nat {
      match this
      case BadRequest => 400
      case ServerError => 500
    }
    function Digits(): string {
      match this
      case BadRequest => "400"
      case ServerError => "500"
    }
  }

  /** The exceptions that reach the blanket handler. */
  datatype Exception = HttpError(status: Status, detail: string) | ProviderError(message: string)

  /** `str(e)`: an HTTP exception prints as "<status>: <detail>". */
  function Str(e: Exception): string {
    match e
    case HttpError(status, detail) => status.Digits() + ": " + detail
    case ProviderError(message) => message
  }

  /** What the endpoint answers: `{"recipe": ...}` or an HTTP error. */
  datatype Response = Recipe(recipe: string) | Failure(status: nat, detail: string)

  datatype Handled = Handled(response: Response, calls: seq<Call>)

  const InvalidChoice := "Ogiltigt val"
  const NotText := "Filen är inte en giltig textfil"
  const MissingKey := "OpenAI API-nyckel saknas"

  const VisionInstruction :=
    "Detta är en bild av mitt kylskåp. "
    + "Lista alla ingredienser och råvaror du kan identifiera i bilden. "
    + "Var specifik och detaljerad. "
    + "Lista råvarorna på svenska."

  /** Which implementation handles the request. The all-in-one server also
      sees the configured API key. */
  datatype Variant = ApiServer | AllInOne(apiKey: Option<string>)

  /** The all-in-one server refuses image mode when the key is unset or empty. */
  predicate KeyMissing(v: Variant) {
    v.AllInOne? && (v.apiKey.None? || v.apiKey.value == "")
  }

  /** The image-analysis call: the API server sends a `data:` URL and a token
      limit of 500 to "gpt-4o"; the all-in-one server sends the bare base64
      text to "gpt-4". */
  function VisionCall(v: Variant, upload: seq<byte>): Call {
    match v
    case ApiServer => Vision("gpt-4o", VisionInstruction, Base64.DataUrl(upload), Some(500))
    case AllInOne(_) => Vision("gpt-4", VisionInstruction, Base64.Encode(upload), None)
  }

  function TextModel(v: Variant): string {
    match v
    case ApiServer => "gpt-4-turbo"
    case AllInOne(_) => "gpt-4"
  }

  /** The first stage of the `try` block: the ingredient listing, or the
      exception that ends the request, with the calls made so far. */
  datatype Listing = Listed(text: string, calls: seq<Call>) | Threw(e: Exception, calls: seq<Call>)

  function ReadListing(v: Variant, req: Request, provider: Provider): Listing {
    if req.choice == "1" then
      match Decode(req.upload)
      case Some(text) => Listed(text, [])
      case None => Threw(HttpError(BadRequest, NotText), [])
    else if req.choice == "2" then
      if KeyMissing(v) then Threw(HttpError(ServerError, MissingKey), [])
      else
        var call := VisionCall(v, req.upload);
        match provider(call)
        case Completion(content) => Listed(content, [call])
        case Raised(message) => Threw(ProviderError(message), [call])
    else
      Threw(HttpError(BadRequest, InvalidChoice), [])
  }

  /** The endpoint. Every exception, the handler's own 400s included, is
      caught by the blanket `except Exception` and re-raised as a 500 whose
      detail is the exception's text. */
  function Generate(v: Variant, req: Request, provider: Provider): (r: Handled)
    // every failure is a 500
    ensures r.response.Failure? ==> r.response.status == 500
    // a recipe is the text model's completion, unmodified
    ensures r.response.Recipe? ==>
      && |r.calls| >= 1
      && r.calls[|r.calls| - 1].Text?
      && r.calls[|r.calls| - 1].model == TextModel(v)
      && provider(r.calls[|r.calls| - 1]) == Completion(r.response.recipe)
    // a failure after a model call is that call's exception
    ensures r.response.Failure? && |r.calls| >= 1 ==>
      provider(r.calls[|r.calls| - 1]) == Raised(r.response.detail)
    // at most two calls, and the first of two was answered
    ensures |r.calls| <= 2
    ensures |r.calls| == 2 ==> provider(r.calls[0]).Completion?
    // the text call carries the request's parameters, and after a vision call
    // its listing is the vision model's completion
    ensures |r.calls| >= 1 && r.calls[|r.calls| - 1].Text? ==> r.calls[|r.calls| - 1].params == ParamsOf(req)
    ensures |r.calls| == 2 ==> r.calls[1] == Text(TextModel(v), ParamsOf(req), provider(r.calls[0]).content)
  {
    match ReadListing(v, req, provider)
    case Threw(e, calls) => Handled(Failure(500, Str(e)), calls)
    case Listed(text, calls) =>
      var call := Text(TextModel(v), ParamsOf(req), text);
      match provider(call)
      case Completion(content) => Handled(Recipe(content), calls + [call])
      case Raised(message) => Handled(Failure(500, message), calls + [call])
  }

  /** The texts of the handler's own exceptions as the client sees them in
      the detail of the 500: the inner status code stays visible. */
  lemma InvalidChoiceText()
    ensures Str(HttpError(BadRequest, InvalidChoice)) == "400: Ogiltigt val"
  {
  }

  lemma NotTextText()
    ensures Str(HttpError(BadRequest, NotText)) == "400: Filen är inte en giltig textfil"
  {
  }

  lemma MissingKeyText()
    ensures Str(HttpError(ServerError, MissingKey)) == "500: OpenAI API-nyckel saknas"
  {
  }

  /** A choice other than "1" or "2" fails before any model call; the 400
      surfaces as a 500. */
  lemma UnknownChoiceFails(v: Variant, req: Request, provider: Provider)
    requires req.choice != "1" && req.choice != "2"
    ensures Generate(v, req, provider) == Handled(Failure(500, Str(HttpError(BadRequest, InvalidChoice))), [])
  {
  }

  /** Text mode: bytes that are not well-formed UTF-8 fail before any model
      call, and well-formed bytes are decoded and sent in one text call. */
  lemma TextMode(v: Variant, req: Request, provider: Provider)
    requires req.choice == "1"
    ensures !Valid(req.upload) ==>
      Generate(v, req, provider) == Handled(Failure(500, Str(HttpError(BadRequest, NotText))), [])
    ensures Valid(req.upload) ==>
      && Decode(req.upload).Some?
      && Generate(v, req, provider).calls
         == [Text(TextModel(v), ParamsOf(req), Decode(req.upload).value)]
  {
    DecodeSucceedsIffValid(req.upload);
  }

  /** Image mode: the all-in-one server without a key fails before encoding
      the image or calling a model; otherwise the vision call comes first. Its
      completion is the listing of the text call; its exception ends the
      request with no further call. */
  lemma ImageMode(v: Variant, req: Request, provider: Provider)
    requires req.choice == "2"
    ensures KeyMissing(v) ==>
      Generate(v, req, provider) == Handled(Failure(500, Str(HttpError(ServerError, MissingKey))), [])
    ensures !KeyMissing(v) ==>
      var r := Generate(v, req, provider);
      |r.calls| >= 1 && r.calls[0] == VisionCall(v, req.upload)
    ensures !KeyMissing(v) && provider(VisionCall(v, req.upload)).Completion? ==>
      Generate(v, req, provider).calls
      == [VisionCall(v, req.upload), Text(TextModel(v), ParamsOf(req), provider(VisionCall(v, req.upload)).content)]
    ensures !KeyMissing(v) && provider(VisionCall(v, req.upload)).Raised? ==>
      Generate(v, req, provider)
      == Handled(Failure(500, provider(VisionCall(v, req.upload)).message), [VisionCall(v, req.upload)])
  {
  }

  /** `generate_recipe` of the API server: a photo goes to "gpt-4o" as a
      `data:` URL with a 500-token limit, and the recipe comes from
      "gpt-4-turbo". */
  function ApiGenerate(req: Request, provider: Provider): (r: Handled)
    ensures r == Generate(ApiServer, req, provider)
    ensures req.choice == "2" ==>
      |r.calls| >= 1 && r.calls[0] == Vision("gpt-4o", VisionInstruction, Base64.DataUrl(req.upload), Some(500))
    ensures r.response.Recipe? ==> r.calls[|r.calls| - 1].model == "gpt-4-turbo"
  {
    ImageModeFirstCall(ApiServer, req, provider);
    Generate(ApiServer, req, provider)
  }

  /** `generate_recipe` of the all-in-one server, which also sees the key:
      without a non-empty key a photo is refused with no model call;
      otherwise it goes to "gpt-4" as bare base64 text with no token limit,
      and the recipe comes from "gpt-4" too. */
  function AllInOneGenerate(apiKey: Option<string>, req: Request, provider: Provider): (r: Handled)
    ensures r == Generate(AllInOne(apiKey), req, provider)
    ensures req.choice == "2" && (apiKey.None? || apiKey == Some("")) ==>
      r == Handled(Failure(500, "500: OpenAI API-nyckel saknas"), [])
    ensures req.choice == "2" && apiKey.Some? && apiKey.value != "" ==>
      |r.calls| >= 1 && r.calls[0] == Vision("gpt-4", VisionInstruction, Base64.Encode(req.upload), None)
    ensures r.response.Recipe? ==> r.calls[|r.calls| - 1].model == "gpt-4"
  {
    MissingKeyText();
    ImageModeFirstCall(AllInOne(apiKey), req, provider);
    Generate(AllInOne(apiKey), req, provider)
  }

  /** The first call of image mode, when the key check passes. */
  lemma ImageModeFirstCall(v: Variant, req: Request, provider: Provider)
    ensures req.choice == "2" && !KeyMissing(v) ==>
      var r := Generate(v, req, provider);
      |r.calls| >= 1 && r.calls[0] == VisionCall(v, req.upload)
  {
    if req.choice == "2" {
      ImageMode(v, req, provider);
    }
  }

  /** In text mode the listing handed to the template is the upload's text:
      encoding it again gives back exactly the uploaded bytes, and the prompt
      ends with it. */
  lemma TextListingVerbatim(v: Variant, req: Request, provider: Provider)
    requires req.choice == "1" && Valid(req.upload)
    ensures var r := Generate(v, req, provider);
      && |r.calls| == 1
      && r.calls[0].Text?
      && Encode(r.calls[0].listing) == req.upload
      && var prompt := r.calls[0].Prompt();
      && |prompt| >= |ListingBlock(r.calls[0].listing)|
      && prompt[|prompt| - |ListingBlock(r.calls[0].listing)|..] == ListingBlock(r.calls[0].listing)
  {
    TextMode(v, req, provider);
    EncodeDecode(req.upload);
  }

  /** In image mode the API server sends a `data:` URL whose payload is the
      standard base64 of the upload: 4·⌈n/3⌉ characters that decode back to
      exactly the uploaded bytes. */
  lemma ApiImageUrl(req: Request, provider: Provider)
    requires req.choice == "2"
    ensures var r := ApiGenerate(req, provider);
      && |r.calls| >= 1
      && var url := r.calls[0].image;
      && |url| == |Base64.DataUrlPrefix| + 4 * ((|req.upload| + 2) / 3)
      && url[..|Base64.DataUrlPrefix|] == Base64.DataUrlPrefix
      && Base64.Decode(url[|Base64.DataUrlPrefix|..]) == Some(req.upload)
  {
    ImageMode(ApiServer, req, provider);
  }

  /** Both implementations fill the same template with the same values: in
      text mode their prompts are identical, each sent to its own model. */
  lemma SamePrompt(apiKey: Option<string>, req: Request, p1: Provider, p2: Provider)
    requires req.choice == "1" && Valid(req.upload)
    ensures var a := ApiGenerate(req, p1);
      var b := AllInOneGenerate(apiKey, req, p2);
      && |a.calls| == 1 && |b.calls| == 1
      && a.calls[0].Text? && b.calls[0].Text?
      && a.calls[0].params == b.calls[0].params
      && a.calls[0].listing == b.calls[0].listing
  {
    TextMode(ApiServer, req, p1);
    TextMode(AllInOne(apiKey), req, p2);
  }

  /** The two implementations answer alike whenever their providers do: if
      each text model answers every prompt as the other does, and the two
      vision calls get the same reply, the responses are the same, except
      that the all-in-one server refuses image mode without a key. */
  lemma VariantsAgree(apiKey: Option<string>, req: Request, p1: Provider, p2: Provider)
    requires forall params, listing ::
      p1(Text("gpt-4-turbo", params, listing)) == p2(Text("gpt-4", params, listing))
    requires p1(VisionCall(ApiServer, req.upload)) == p2(VisionCall(AllInOne(apiKey), req.upload))
    ensures var a := ApiGenerate(req, p1);
      var b := AllInOneGenerate(apiKey, req, p2);
      if req.choice == "2" && KeyMissing(AllInOne(apiKey))
      then b.response == Failure(500, Str(HttpError(ServerError, MissingKey)))
      else a.response == b.response && |a.calls| == |b.calls|
  {
    var a := ReadListing(ApiServer, req, p1);
    var b := ReadListing(AllInOne(apiKey), req, p2);
    if !(req.choice == "2" && KeyMissing(AllInOne(apiKey))) {
      assert a.Listed? <==> b.Listed?;
      if a.Listed? {
        assert a.text == b.text;
        var params := ParamsOf(req);
        assert p1(Text("gpt-4-turbo", params, a.text)) == p2(Text("gpt-4", params, a.text));
      } else {
        assert Str(a.e) == Str(b.e);
      }
    }
  }
}
