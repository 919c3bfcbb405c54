/** Content generation around the language model: the four choices are validated against
    the content hierarchy, the prompts are built, image links are checked and appended, and the
    model's answer becomes the result or an HTTP error. The model itself is a parameter. */
module ContentGeneration {
  import opened Wrappers
  import opened Strings
  import CT = ContentType
  import PB = PromptBuilder

  /** An `HTTPException`: its status code and detail text. */
  datatype HttpError = HttpError(status: int, detail: string)

  /** `validate_parameters`: `None` when the choices form a path of the hierarchy, otherwise
      a 400 naming the first level that is not found. */
  function ValidateParameters(contentFormat: string, objective: string, audience: string, tone: string)
    : (r: Option<HttpError>)
    ensures r.Some? ==> r.value.status == 400
    ensures contentFormat !in CT.Keys(CT.ContentHierarchy) ==> r == Some(HttpError(400, "Invalid content format"))
  {
    match CT.Get(CT.ContentHierarchy, contentFormat)
    case None => Some(HttpError(400, "Invalid content format"))
    case Some(objectives) =>
      match CT.Get(objectives, objective)
      case None => Some(HttpError(400, "Invalid objective"))
      case Some(audiences) =>
        match CT.Get(audiences, audience)
        case None => Some(HttpError(400, "Invalid audience"))
        case Some(tones) =>
          if tone in tones then None else Some(HttpError(400, "Invalid tone"))
  }

  /** Validation passes exactly for the paths the hierarchy lists. */
  lemma ValidationMatchesHierarchy(contentFormat: string, objective: string, audience: string, tone: string)
    ensures ValidateParameters(contentFormat, objective, audience, tone).None?
        <==> CT.OnPath(contentFormat, objective, audience, tone)
  {
    CT.TonesOnPath(contentFormat, objective, audience, tone);
  }

  /** Once format, objective and audience are listed, the tone is accepted exactly when it is
      one of the nine tones; otherwise the error names the tone. */
  lemma ToneChecked(contentFormat: string, objective: string, audience: string, tone: string)
    requires CT.Tones(contentFormat, objective, audience).Some?
    ensures ValidateParameters(contentFormat, objective, audience, tone)
         == if tone in CT.ToneOptions then None else Some(HttpError(400, "Invalid tone"))
  {
    CT.EveryPathEndsInTones(contentFormat, objective, audience);
  }

  /** A link the model may use: `https://` and `s3` somewhere in it. */
  predicate ValidImageUrl(url: string) {
    StartsWith(url, "https://") && Contains(url, "s3")
  }

  /** The first link that fails the check, as the loop meets them. */
  function FirstInvalidUrl(urls: seq<string>): (r: Option<string>)
    ensures r.None? <==> forall i :: 0 <= i < |urls| ==> ValidImageUrl(urls[i])
    ensures r.Some? ==> exists i :: 0 <= i < |urls| && urls[i] == r.value && !ValidImageUrl(urls[i])
                                   && (forall j :: 0 <= j < i ==> ValidImageUrl(urls[j]))
  {
    if urls == [] then None
    else if !ValidImageUrl(urls[0]) then Some(urls[0])
    else
      var r := FirstInvalidUrl(urls[1..]);
      if r.Some? then
        var i :| 0 <= i < |urls| - 1 && urls[1..][i] == r.value && !ValidImageUrl(urls[1..][i])
          && forall j :: 0 <= j < i ==> ValidImageUrl(urls[1..][j]);
        assert urls[i + 1] == r.value && forall j :: 0 <= j < i + 1 ==> ValidImageUrl(urls[j]);
        r
      else
        r
  }

  /** The instruction appended to every system prompt. */
  const Instruction := "\n\nInstruction: Must return only the content. If any of the provided S3 image URLs are relevant, insert them exactly as they are (including query parameters) at the appropriate place in the content. \n                Do not change, shorten, reformat, or replace the URL. Do not use HTML, markdown, base64, or placeholders. Just insert the full original URL where it fits naturally. In the link do not add anything just send the raw link"

  /** The line introducing the image links in the user prompt. */
  const LinksHeader := "\n\nUse the following image links if they are relevant:\n"

  /** The prompts sent to the model: the built prompts, the instruction after the system text
      and, when there are links, the links one per line after the user text. */
  function Prompts(system: string, user: string, imagePaths: seq<string>): (string, string)
  {
    (system + Instruction, if imagePaths == [] then user else user + LinksHeader + Join(imagePaths, "\n"))
  }

  /** The prompt extension of `generate_content`: the instruction is appended, every link is
      checked in order, the first bad one raising 400, and then all links are appended. */
  method ExtendPrompts(system: string, user: string, imagePaths: seq<string>)
    returns (r: Result<(string, string), HttpError>)
    ensures FirstInvalidUrl(imagePaths).Some? ==>
      r == Err(HttpError(400, "Invalid S3 image URL: " + FirstInvalidUrl(imagePaths).value))
    ensures FirstInvalidUrl(imagePaths).None? ==> r == Ok(Prompts(system, user, imagePaths))
  {
    var systemPrompt := system + Instruction;
    var userPrompt := user;
    if imagePaths != [] {
      var i := 0;
      while i < |imagePaths|
        invariant 0 <= i <= |imagePaths|
        invariant forall j :: 0 <= j < i ==> ValidImageUrl(imagePaths[j])
      {
        if !ValidImageUrl(imagePaths[i]) {
          FirstInvalidAt(imagePaths, i);
          return Err(HttpError(400, "Invalid S3 image URL: " + imagePaths[i]));
        }
        i := i + 1;
      }
      userPrompt := userPrompt + LinksHeader + Join(imagePaths, "\n");
    }
    return Ok((systemPrompt, userPrompt));
  }

  /** A bad link after only good ones is the first bad link. */
  lemma {:induction false} FirstInvalidAt(urls: seq<string>, i: nat)
    requires i < |urls| && !ValidImageUrl(urls[i])
    requires forall j :: 0 <= j < i ==> ValidImageUrl(urls[j])
    ensures FirstInvalidUrl(urls) == Some(urls[i])
  {
    if i > 0 {
      assert urls[1..][i - 1] == urls[i];
      FirstInvalidAt(urls[1..], i - 1);
    }
  }

  /** The system prompt is the selected template's system text followed by the instruction,
      and the links can be read back from the end of the user prompt, in their order. */
  lemma PromptsCarryLinks(system: string, user: string, imagePaths: seq<string>)
    requires imagePaths != [] && forall k :: 0 <= k < |imagePaths| ==> Excludes(imagePaths[k], '\n')
    ensures StartsWith(Prompts(system, user, imagePaths).0, system)
    ensures EndsWith(Prompts(system, user, imagePaths).0, Instruction)
    ensures var u := Prompts(system, user, imagePaths).1;
      |user + LinksHeader| <= |u| && StartsWith(u, user + LinksHeader)
      && SplitOn(u[|user + LinksHeader|..], '\n') == imagePaths
  {
    AppendStartsWith(system, Instruction);
    AppendEndsWith(system, Instruction);
    var head := user + LinksHeader;
    var links := Join(imagePaths, "\n");
    AppendStartsWith(head, links);
    ConcatParts(head, links);
    SplitJoin(imagePaths, '\n');
  }

  /** What the model call answers: content, no content (no choice, or an empty message), or
      an exception of the client. */
  datatype Completion = Content(text: string) | NoContent | Failure(message: string)

  /** The result of `generate_content` once the prompts are sent: empty content is a 500, and
      any other exception is wrapped in a 500. */
  function Answer(c: Completion): (r: Result<string, HttpError>)
    ensures r.Ok? <==> c.Content? && c.text != ""
    ensures r.Ok? ==> r.value == c.text
    ensures r.Err? ==> r.error.status == 500
  {
    match c
    case Content(text) =>
      if text == "" then Err(HttpError(500, "No content generated from OpenAI")) else Ok(text)
    case NoContent => Err(HttpError(500, "No content generated from OpenAI"))
    case Failure(message) => Err(HttpError(500, "Content generation failed: " + message))
  }

  /** `generate_content`, the model being `complete` (system prompt, user prompt): the HTTP
      errors of validation and of the link check pass through unchanged, in that order, and
      otherwise the answer to the extended prompts decides. */
  method GenerateContent(contentFormat: string, objective: string, audience: string, tone: string,
                         text: string, imagePaths: seq<string>, complete: (string, string) -> Completion)
    returns (r: Result<string, HttpError>)
    ensures var invalid := ValidateParameters(contentFormat, objective, audience, tone);
      invalid.Some? ==> r == Err(invalid.value)
    ensures var invalid := ValidateParameters(contentFormat, objective, audience, tone);
      invalid.None? && FirstInvalidUrl(imagePaths).Some? ==>
        r == Err(HttpError(400, "Invalid S3 image URL: " + FirstInvalidUrl(imagePaths).value))
    ensures var invalid := ValidateParameters(contentFormat, objective, audience, tone);
      var built := PB.BuildPrompt(contentFormat, objective, audience, tone, text);
      var prompts := Prompts(built.0, built.1, imagePaths);
      invalid.None? && FirstInvalidUrl(imagePaths).None? ==> r == Answer(complete(prompts.0, prompts.1))
  {
    var invalid := ValidateParameters(contentFormat, objective, audience, tone);
    if invalid.Some? {
      return Err(invalid.value);
    }
    var built := PB.BuildPrompt(contentFormat, objective, audience, tone, text);
    var prompts := ExtendPrompts(built.0, built.1, imagePaths);
    if prompts.Err? {
      return Err(prompts.error);
    }
    var systemPrompt, userPrompt := prompts.value.0, prompts.value.1;
    r := Answer(complete(systemPrompt, userPrompt));
  }
}
