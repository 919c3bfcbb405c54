/** The question flow of content generation: five questions asked in a fixed order, each
    given its answer options from the answers so far. The state is the dictionary of answers;
    a value counts as given (Python truthiness) when it is present and not empty. */
module QuestionFlow {
  import opened Wrappers
  import CT = ContentType
  import CG = ContentGeneration

  /** An entry of `QUESTION_FLOW`: its key, its text and, for two of them, fixed options. */
  datatype Question = Question(key: string, question: string, options: Option<seq<string>>)

  /** `ContentFlowQuestion`, the question as it is answered to the client. */
  datatype FlowQuestion = FlowQuestion(key: string, question: string, options: Option<seq<string>>,
                                       uploadUrl: Option<string>, images: Option<seq<string>>)

  /** A 400 with its detail, or the `KeyError` of a dictionary lookup with the missing key. */
  datatype FlowError = BadRequest(detail: string) | KeyMissing(key: string)

  type State = map<string, string>

  /** `QUESTION_FLOW`. */
  const Flow: seq<Question> := [
    Question("content_format", "What type of content do you want to create?",
             Some(CT.Keys(CT.ContentHierarchy))),
    Question("objective", "What is your objective?", None),
    Question("audience", "Who is your target audience?", None),
    Question("tone", "What tone should the content have?", None),
    Question("include_images", "Include images from the document?", Some(["Yes", "No"]))
  ]

  /** The keys of the flow, in the order they are asked. */
  const FlowKeys: seq<string> := ["content_format", "objective", "audience", "tone", "include_images"]

  /** `current_state.get(key)` is truthy. */
  predicate Given(state: State, key: string) {
    key in state && state[key] != ""
  }

  /** The presigned links of a document's images, in the order of their ids. */
  function ImageUrls(imageIds: seq<string>, presign: string -> string): (r: seq<string>)
    ensures |r| == |imageIds|
    ensures forall i :: 0 <= i < |imageIds| ==> r[i] == presign("images/" + imageIds[i])
  {
    if imageIds == [] then [] else [presign("images/" + imageIds[0])] + ImageUrls(imageIds[1..], presign)
  }

  /** The options computed from the earlier answers, before fixed options override them. */
  function Computed(q: Question, state: State, imageIds: string -> seq<string>, presign: string -> string)
    : Result<FlowQuestion, FlowError>
  {
    var response := FlowQuestion(q.key, q.question, None, None, None);
    if q.key == "objective" then
      if Given(state, "content_format") then
        match CT.Get(CT.ContentHierarchy, state["content_format"])
        case None => Ok(response)
        case Some(objectives) => Ok(response.(options := Some(CT.Keys(objectives))))
      else Ok(response)
    else if q.key == "audience" then
      if Given(state, "content_format") && Given(state, "objective") then
        var f, o := state["content_format"], state["objective"];
        match CT.Get(CT.ContentHierarchy, f)
        case None => Err(KeyMissing(f))
        case Some(objectives) =>
          match CT.Get(objectives, o)
          case None => Err(KeyMissing(o))
          case Some(audiences) => Ok(response.(options := Some(CT.Keys(audiences))))
      else Ok(response)
    else if q.key == "tone" then
      if Given(state, "content_format") && Given(state, "objective") && Given(state, "audience") then
        var f, o, a := state["content_format"], state["objective"], state["audience"];
        match CT.Get(CT.ContentHierarchy, f)
        case None => Err(KeyMissing(f))
        case Some(objectives) =>
          match CT.Get(objectives, o)
          case None => Err(KeyMissing(o))
          case Some(audiences) =>
            match CT.Get(audiences, a)
            case None => Err(KeyMissing(a))
            case Some(tones) => Ok(response.(options := Some(tones)))
      else Ok(response)
    else if q.key == "include_images" && Given(state, "document_id") then
      Ok(response.(images := Some(ImageUrls(imageIds(state["document_id"]), presign))))
    else Ok(response)
  }

  /** `augment_question`: the question with options from the answers so far (and the
      document's image links for `include_images`); a question's fixed options win. The image
      ids of a document and the presigned link of a key are parameters. */
  function AugmentQuestion(q: Question, state: State, imageIds: string -> seq<string>,
                           presign: string -> string): (r: Result<FlowQuestion, FlowError>)
    ensures r.Ok? ==> r.value.key == q.key && r.value.question == q.question
    ensures r.Ok? ==> r.value.uploadUrl.None?
    ensures q.options.Some? && r.Ok? ==> r.value.options == q.options
  {
    var computed := Computed(q, state, imageIds, presign);
    if computed.Ok? && q.options.Some? then Ok(computed.value.(options := q.options)) else computed
  }

  /** The index of the first question whose key the state lacks, `None` when all are there. */
  function FirstUnanswered(flow: seq<Question>, state: State): (r: Option<nat>)
    ensures r.None? <==> forall i :: 0 <= i < |flow| ==> flow[i].key in state
    ensures r.Some? ==> r.value < |flow| && flow[r.value].key !in state
                        && forall i :: 0 <= i < r.value ==> flow[i].key in state
  {
    if flow == [] then None
    else if flow[0].key !in state then Some(0)
    else
      match FirstUnanswered(flow[1..], state)
      case None => None
      case Some(i) =>
        assert forall j :: 0 <= j < i ==> flow[j + 1] == flow[1..][j];
        Some(i + 1)
  }

  /** `get_next_question`: the question at `stepIndex` when one is given (400 when it is out
      of range), otherwise the first question not yet answered (400 when none is left). */
  function GetNextQuestion(state: State, stepIndex: Option<int>, imageIds: string -> seq<string>,
                           presign: string -> string): (r: Result<FlowQuestion, FlowError>)
    ensures stepIndex.Some? && !(0 <= stepIndex.value < |Flow|) ==> r == Err(BadRequest("Invalid step index"))
    ensures (stepIndex.Some? && 0 <= stepIndex.value < |Flow|)
            ==> r == AugmentQuestion(Flow[stepIndex.value], state, imageIds, presign)
    ensures (stepIndex.None? && forall i :: 0 <= i < |Flow| ==> Flow[i].key in state)
            ==> r == Err(BadRequest("All questions answered"))
    ensures stepIndex.None? && r.Ok? ==> r.value.key !in state
  {
    match stepIndex
    case Some(i) =>
      if 0 <= i < |Flow| then AugmentQuestion(Flow[i], state, imageIds, presign)
      else Err(BadRequest("Invalid step index"))
    case None =>
      match FirstUnanswered(Flow, state)
      case None => Err(BadRequest("All questions answered"))
      case Some(i) => AugmentQuestion(Flow[i], state, imageIds, presign)
  }

  /** The flow asks exactly five questions, in the order of `FlowKeys`. */
  lemma FlowOrder()
    ensures |Flow| == |FlowKeys| == 5
    ensures forall i :: 0 <= i < |Flow| ==> Flow[i].key == FlowKeys[i]
  {
  }

  /** Once the first `k` questions are answered and the next one is not, that one is asked,
      whatever later answers the state already holds. */
  lemma NextFollowsOrder(state: State, k: nat, imageIds: string -> seq<string>, presign: string -> string)
    requires k < |FlowKeys| && FlowKeys[k] !in state
    requires forall i :: 0 <= i < k ==> FlowKeys[i] in state
    ensures GetNextQuestion(state, None, imageIds, presign) == AugmentQuestion(Flow[k], state, imageIds, presign)
  {
    FlowOrder();
    var r := FirstUnanswered(Flow, state);
    assert Flow[k].key !in state;
    var i := r.value;
    assert Flow[i].key == FlowKeys[i];
  }

  /** The objective question offers the objectives of the chosen format exactly when that
      format is given and listed; otherwise it offers nothing, and it never fails. */
  lemma ObjectiveOptions(state: State, imageIds: string -> seq<string>, presign: string -> string)
    ensures var r := AugmentQuestion(Flow[1], state, imageIds, presign);
      && r.Ok?
      && (r.value.options.Some? <==> "content_format" in state && state["content_format"] in CT.Formats)
      && (r.value.options.Some? ==>
            r.value.options == Some(CT.Keys(CT.Get(CT.ContentHierarchy, state["content_format"]).value)))
  {
    CT.HierarchyFormats();
    FormatsNonEmpty();
  }

  /** The audience question looks the earlier answers up without checking them: a given
      format or objective the hierarchy lacks raises a lookup error naming it. */
  lemma AudienceUnvalidated(state: State, imageIds: string -> seq<string>, presign: string -> string)
    requires Given(state, "content_format") && Given(state, "objective")
    ensures var r := AugmentQuestion(Flow[2], state, imageIds, presign);
      var f, o := state["content_format"], state["objective"];
      && (f !in CT.Formats ==> r == Err(KeyMissing(f)))
      && (CT.Get(CT.ContentHierarchy, f).Some? && o !in CT.Keys(CT.Get(CT.ContentHierarchy, f).value)
          ==> r == Err(KeyMissing(o)))
      && (r.Ok? ==> r.value.options.Some?)
  {
    CT.HierarchyFormats();
  }

  /** Until the format and the objective are both given, the audience and tone questions
      offer nothing. */
  lemma UnansweredOffersNothing(state: State, imageIds: string -> seq<string>, presign: string -> string)
    requires !Given(state, "content_format") || !Given(state, "objective")
    ensures AugmentQuestion(Flow[2], state, imageIds, presign).Ok?
    ensures AugmentQuestion(Flow[2], state, imageIds, presign).value.options.None?
    ensures AugmentQuestion(Flow[3], state, imageIds, presign).Ok?
    ensures AugmentQuestion(Flow[3], state, imageIds, presign).value.options.None?
  {
  }

  /** Whenever the tone question offers options, they are the nine tones. */
  lemma ToneOptionsOffered(state: State, imageIds: string -> seq<string>, presign: string -> string)
    ensures var r := AugmentQuestion(Flow[3], state, imageIds, presign);
      r.Ok? && r.value.options.Some? ==> r.value.options.value == CT.ToneOptions
  {
    if Given(state, "content_format") && Given(state, "objective") && Given(state, "audience") {
      CT.EveryPathEndsInTones(state["content_format"], state["objective"], state["audience"]);
    }
  }

  /** The two questions with fixed options always offer them (the format question offers
      the four formats), and only `include_images` can carry image links: those of the
      document when one is given. */
  lemma FixedOptionsWin(state: State, imageIds: string -> seq<string>, presign: string -> string)
    ensures AugmentQuestion(Flow[0], state, imageIds, presign) == Ok(FlowQuestion(
              "content_format", "What type of content do you want to create?", Some(CT.Formats), None, None))
    ensures var r := AugmentQuestion(Flow[4], state, imageIds, presign);
      && r.Ok? && r.value.options == Some(["Yes", "No"])
      && r.value.images == if Given(state, "document_id")
                           then Some(ImageUrls(imageIds(state["document_id"]), presign)) else None
  {
    CT.HierarchyFormats();
  }

  /** No format, objective or audience of the hierarchy is the empty string, so picking an
      offered option always counts as an answer. */
  lemma FormatsNonEmpty()
    ensures forall i :: 0 <= i < |CT.Formats| ==> CT.Formats[i] != ""
  {
  }

  /** `x` is among the options the question offers in `state`. */
  predicate Offered(q: Question, state: State, x: string, imageIds: string -> seq<string>, presign: string -> string) {
    var r := AugmentQuestion(q, state, imageIds, presign);
    r.Ok? && r.value.options.Some? && x in r.value.options.value
  }

  /** The format question offers exactly the four formats. */
  lemma FormatOffered(state: State, x: string, imageIds: string -> seq<string>, presign: string -> string)
    ensures Offered(Flow[0], state, x, imageIds, presign) <==> x in CT.Formats
  {
    CT.HierarchyFormats();
  }

  /** The objective question offers exactly the objectives of a given, listed format. */
  lemma ObjectiveOffered(state: State, x: string, imageIds: string -> seq<string>, presign: string -> string)
    ensures Offered(Flow[1], state, x, imageIds, presign)
        <==> (&& Given(state, "content_format")
              && CT.Get(CT.ContentHierarchy, state["content_format"]).Some?
              && x in CT.Keys(CT.Get(CT.ContentHierarchy, state["content_format"]).value))
  {
  }

  /** The audience question offers exactly the audiences of a given, listed objective. */
  lemma AudienceOffered(state: State, x: string, imageIds: string -> seq<string>, presign: string -> string)
    ensures Offered(Flow[2], state, x, imageIds, presign)
        <==> (&& Given(state, "content_format") && Given(state, "objective")
              && CT.Get(CT.ContentHierarchy, state["content_format"]).Some?
              && CT.Get(CT.Get(CT.ContentHierarchy, state["content_format"]).value, state["objective"]).Some?
              && x in CT.Keys(CT.Get(CT.Get(CT.ContentHierarchy, state["content_format"]).value,
                                     state["objective"]).value))
  {
  }

  /** The tone question offers exactly the tones of a given, listed path. */
  lemma ToneOffered(state: State, x: string, imageIds: string -> seq<string>, presign: string -> string)
    ensures Offered(Flow[3], state, x, imageIds, presign)
        <==> (&& Given(state, "content_format") && Given(state, "objective") && Given(state, "audience")
              && CT.Tones(state["content_format"], state["objective"], state["audience"]).Some?
              && x in CT.Tones(state["content_format"], state["objective"], state["audience"]).value)
  {
  }

  /** The answers `f`, `o`, `a`, `t` are each among the options offered when their question
      comes, the earlier ones given. */
  predicate Chosen(f: string, o: string, a: string, t: string,
                   imageIds: string -> seq<string>, presign: string -> string) {
    && Offered(Flow[0], map[], f, imageIds, presign)
    && Offered(Flow[1], map["content_format" := f], o, imageIds, presign)
    && Offered(Flow[2], map["content_format" := f, "objective" := o], a, imageIds, presign)
    && Offered(Flow[3], map["content_format" := f, "objective" := o, "audience" := a], t, imageIds, presign)
  }

  /** Offered choices are exactly the non-empty answers along a listed path. */
  lemma ChosenListed(f: string, o: string, a: string, t: string,
                     imageIds: string -> seq<string>, presign: string -> string)
    ensures Chosen(f, o, a, t, imageIds, presign)
        <==> (f != "" && o != "" && a != "" && CT.Tones(f, o, a).Some? && t in CT.Tones(f, o, a).value)
  {
    var s1: State := map["content_format" := f];
    var s2: State := map["content_format" := f, "objective" := o];
    var s3: State := map["content_format" := f, "objective" := o, "audience" := a];
    assert s1["content_format"] == f;
    assert s2["content_format"] == f && s2["objective"] == o;
    assert s3["content_format"] == f && s3["objective"] == o && s3["audience"] == a;
    FormatOffered(map[], f, imageIds, presign);
    ObjectiveOffered(s1, o, imageIds, presign);
    AudienceOffered(s2, a, imageIds, presign);
    ToneOffered(s3, t, imageIds, presign);
    CT.HierarchyFormats();
  }

  /** Every format, objective and audience a lookup finds is a non-empty key. */
  lemma ListedKeysNonEmpty(f: string, o: string, a: string)
    requires CT.Tones(f, o, a).Some?
    ensures f != "" && o != "" && a != ""
  {
    var objectives := CT.Get(CT.ContentHierarchy, f).value;
    var audiences := CT.Get(objectives, o).value;
    CT.HierarchyWellFormed();
    CT.GetNonEmpty(CT.ContentHierarchy, f);
    CT.ObjectivesOf(f);
    CT.GetNonEmpty(objectives, o);
    var j :| 0 <= j < |objectives| && objectives[j] == (o, audiences);
    CT.GetNonEmpty(audiences, a);
  }

  /** Choosing offered options at each of the four steps builds exactly the requests that
      `validate_parameters` accepts. */
  lemma OfferedChoicesValidate(f: string, o: string, a: string, t: string,
                               imageIds: string -> seq<string>, presign: string -> string)
    ensures Chosen(f, o, a, t, imageIds, presign) <==> CG.ValidateParameters(f, o, a, t).None?
  {
    ChosenListed(f, o, a, t, imageIds, presign);
    CG.ValidationMatchesHierarchy(f, o, a, t);
    CT.TonesOnPath(f, o, a, t);
    if CT.Tones(f, o, a).Some? {
      ListedKeysNonEmpty(f, o, a);
    }
  }
}
