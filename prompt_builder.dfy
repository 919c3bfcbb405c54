/** Prompt templates and `build_prompt`: a template is chosen by content format, falling back
    to `default`, and its placeholders are filled with `str.format`. A template is kept as the
    pieces of its format string: literal text and `{field}` placeholders. `Format` is
    `str.format` on the text itself, and `FormatSource` shows that formatting a template's text
    inserts every argument verbatim in place of its placeholder. */
module PromptBuilder {
  import opened Wrappers
  import opened Strings
  import CT = ContentType

  /** The keyword arguments `build_prompt` passes to `str.format`. */
  datatype Field = ContentFormat | Objective | Audience | Tone | Text

  datatype Piece = Lit(text: string) | Hole(field: Field)

  datatype PromptArgs = PromptArgs(contentFormat: string, objective: string, audience: string,
                                   tone: string, text: string)

  /** The keyword a placeholder names. */
  function FieldName(f: Field): string {
    match f
    case ContentFormat => "content_format"
    case Objective => "objective"
    case Audience => "audience"
    case Tone => "tone"
    case Text => "text"
  }

  /** The field a placeholder name refers to, `None` for any name that is not a keyword. */
  function FieldNamed(name: string): (r: Option<Field>)
    ensures r.Some? ==> FieldName(r.value) == name
  {
    if name == "content_format" then Some(ContentFormat)
    else if name == "objective" then Some(Objective)
    else if name == "audience" then Some(Audience)
    else if name == "tone" then Some(Tone)
    else if name == "text" then Some(Text)
    else None
  }

  lemma FieldNameNamed(f: Field)
    ensures FieldNamed(FieldName(f)) == Some(f)
  {
  }

  function Arg(args: PromptArgs, f: Field): string {
    match f
    case ContentFormat => args.contentFormat
    case Objective => args.objective
    case Audience => args.audience
    case Tone => args.tone
    case Text => args.text
  }

  /** The template filled in: literal text as is, each placeholder replaced by its argument. */
  function Render(template: seq<Piece>, args: PromptArgs): string
  {
    if template == [] then ""
    else
      (match template[0] case Lit(s) => s case Hole(f) => Arg(args, f)) + Render(template[1..], args)
  }

  /** The format string a template is written as. */
  function Source(template: seq<Piece>): string
  {
    if template == [] then ""
    else
      (match template[0] case Lit(s) => s case Hole(f) => "{" + FieldName(f) + "}")
      + Source(template[1..])
  }

  /** Literal pieces hold no braces, so the text of the template has no escapes. */
  predicate PlainPieces(template: seq<Piece>) {
    forall i :: 0 <= i < |template| && template[i].Lit? ==>
      Excludes(template[i].text, '{') && Excludes(template[i].text, '}')
  }

  function Prepend(p: string, r: Option<string>): (q: Option<string>)
    ensures q.Some? <==> r.Some?
  {
    if r.None? then None else Some(p + r.value)
  }

  /** `s.format(**args)` with keyword arguments only: `{{` and `}}` stand for one brace, a
      `{name}` is replaced by the argument of that name, and an unknown name, an unclosed `{`
      or a lone `}` raises (`None`). */
  function Format(s: string, args: PromptArgs): Option<string>
    decreases |s|
  {
    if s == [] then Some("")
    else if s[0] == '{' && |s| > 1 && s[1] == '{' then Prepend("{", Format(s[2..], args))
    else if s[0] == '}' && |s| > 1 && s[1] == '}' then Prepend("}", Format(s[2..], args))
    else if s[0] == '}' then None
    else if s[0] == '{' then
      var close := 1 + IndexOf(s[1..], '}');
      if close >= |s| then None
      else
        match FieldNamed(s[1..close])
        case None => None
        case Some(f) => Prepend(Arg(args, f), Format(s[close + 1..], args))
    else Prepend([s[0]], Format(s[1..], args))
  }

  /** Text without braces is copied unchanged. */
  lemma {:induction false} FormatLiteral(lit: string, rest: string, args: PromptArgs)
    requires Excludes(lit, '{') && Excludes(lit, '}')
    ensures Format(lit + rest, args) == Prepend(lit, Format(rest, args))
  {
    if lit != [] {
      var s := lit + rest;
      assert s[0] == lit[0];
      assert s[1..] == lit[1..] + rest;
      FormatLiteral(lit[1..], rest, args);
      assert [lit[0]] + lit[1..] == lit;
      if Format(rest, args).Some? {
        ConcatAssoc([lit[0]], lit[1..], Format(rest, args).value);
      }
    } else {
      assert lit + rest == rest;
      if Format(rest, args).Some? {
        assert lit + Format(rest, args).value == Format(rest, args).value;
      }
    }
  }

  /** No keyword contains a closing brace. */
  lemma FieldNamePlain(f: Field)
    ensures Excludes(FieldName(f), '}')
  {
  }

  /** A placeholder is replaced by its argument, which is not scanned again. */
  lemma FormatHole(f: Field, rest: string, args: PromptArgs)
    ensures Format("{" + FieldName(f) + "}" + rest, args) == Prepend(Arg(args, f), Format(rest, args))
  {
    FieldNamePlain(f);
    FieldNameNamed(f);
    FormatField(FieldName(f), f, rest, args);
  }

  /** `{name}` with a known name is replaced by that argument. */
  lemma FormatField(name: string, f: Field, rest: string, args: PromptArgs)
    requires Excludes(name, '}') && FieldNamed(name) == Some(f)
    ensures Format("{" + name + "}" + rest, args) == Prepend(Arg(args, f), Format(rest, args))
  {
    var s := "{" + name + "}" + rest;
    assert name != [] && name[0] != '{';
    assert s[1..] == name + ("}" + rest);
    IndexOfPast(name, "}" + rest, '}');
    var close := 1 + |name|;
    assert s[1..close] == name;
    assert s[close + 1..] == rest;
  }

  /** Formatting the text of a template yields the template with its placeholders filled in:
      arguments are inserted verbatim, even when they contain braces themselves. */
  lemma {:induction false} FormatSource(template: seq<Piece>, args: PromptArgs)
    requires PlainPieces(template)
    ensures Format(Source(template), args) == Some(Render(template, args))
  {
    if template != [] {
      assert PlainPieces(template[1..]) by {
        forall i | 0 <= i < |template| - 1 && template[1..][i].Lit?
          ensures Excludes(template[1..][i].text, '{') && Excludes(template[1..][i].text, '}')
        {
          assert template[1..][i] == template[i + 1];
        }
      }
      FormatSource(template[1..], args);
      var rest := Source(template[1..]);
      match template[0]
      case Lit(s) =>
        FormatLiteral(s, rest, args);
      case Hole(f) =>
        FormatHole(f, rest, args);
    }
  }

  /** Filling in a template piece by piece: a placeholder at any position contributes exactly
      its argument. */
  lemma {:induction false} RenderConcat(a: seq<Piece>, b: seq<Piece>, args: PromptArgs)
    ensures Render(a + b, args) == Render(a, args) + Render(b, args)
  {
    if a == [] {
      assert a + b == b;
    } else {
      assert (a + b)[0] == a[0];
      assert (a + b)[1..] == a[1..] + b;
      RenderConcat(a[1..], b, args);
    }
  }

  /** The placeholders every template shares after its opening line, around its section
      heading and its instructions. */
  function Body(heading: string, instructions: string): seq<Piece> {
    [Hole(Objective), Lit("\n- **Audience**: "), Hole(Audience), Lit("\n- **Tone**: "), Hole(Tone),
     Lit(heading), Hole(Text), Lit(instructions)]
  }

  /** The five entries of `PROMPT_TEMPLATES`. */
  datatype TemplateName = PlainLanguage | TrialReport | Summary | CaseStudy | Default

  /** The `template` of an entry: its opening line, then the shared placeholder lines around
      its section heading and its instructions. */
  function Template(name: TemplateName): seq<Piece>
  {
    Opening(name) + Body(Heading(name), Instructions(name))
  }

  /** The `system` text of each entry. */
  function System(name: TemplateName): string
  {
    match name
    case PlainLanguage => "You are an expert at converting complex medical information into clear, simple summaries. You adjust the tone and language based on the audience (e.g., patients, caregivers, ethics committees). You explain medical terms and structure the content for easy understanding."
    case TrialReport => "You are a scientific and regulatory writer who prepares structured clinical trial reports for health authorities and stakeholders. You prioritize clarity, regulatory compliance, and precision."
    case Summary => "You are a scientific content writer tasked with preparing concise, medically accurate summaries of clinical data for professionals like HTA bodies, regulatory authorities, or MSLs."
    case CaseStudy => "You are a medical communicator preparing engaging and informative patient case studies for clinical and promotional use by healthcare professionals or sales teams."
    case Default => "You are a professional content creator and scientific communicator. You create structured, audience-specific content based on tone and purpose."
  }

  /** The opening line of each template, up to the objective placeholder. */
  function Opening(name: TemplateName): seq<Piece>
  {
    match name
    case PlainLanguage => [Lit("\nYou are creating a **Plain Language Summary**.\n- **Objective**: ")]
    case TrialReport => [Lit("\nGenerate a **Clinical Trial Report**.\n- **Objective**: ")]
    case Summary => [Lit("\nGenerate a **Clinical Summary**.\n- **Objective**: ")]
    case CaseStudy => [Lit("\nGenerate a **Patient Case Study**.\n- **Objective**: ")]
    case Default => [Lit("\nGenerate a **"), Hole(ContentFormat), Lit("**.\n- **Objective**: ")]
  }

  /** The heading above the source text. */
  function Heading(name: TemplateName): string
  {
    match name
    case PlainLanguage => "\n\n### Source Text:\n"
    case TrialReport => "\n\n### Trial Background:\n"
    case Summary => "\n\n### Original Text:\n"
    case CaseStudy => "\n\n### Clinical Case Description:\n"
    case Default => "\n\n### Input:\n"
  }

  /** The instructions closing each template. */
  function Instructions(name: TemplateName): string
  {
    match name
    case PlainLanguage => "\n\n### Instructions:\n- Use accessible, easy-to-read language\n- Rephrase technical content and explain medical terms\n- Maintain clinical accuracy and key information\n- Add image references using markdown format (e.g., ![Caption](image.png))\n"
    case TrialReport => "\n\n### Instructions:\n- Structure content formally with scientific tone\n- Ensure regulatory language and data consistency\n- Reference visuals/images where needed using markdown\n"
    case Summary => "\n\n### Instructions:\n- Summarize clinically relevant points\n- Use concise and analytical language\n- Reorganize the content for clarity and flow\n- Add image placement as markdown if needed\n"
    case CaseStudy => "\n\n### Instructions:\n- Use a narrative tone with clinical accuracy\n- Highlight treatment journey and outcome\n- Mention key data, symptoms, or decisions\n- Place image callouts where appropriate\n"
    case Default => "\n\n### Instructions:\n- Adapt structure and tone to the audience\n- Retain scientific integrity and context\n- Place image references where they naturally fit\n"
  }

  /** `PROMPT_TEMPLATES`, in source order. */
  const PromptTemplates: CT.Entries<TemplateName> := [
    ("Plain Language Summaries", PlainLanguage),
    ("Clinical Trial Report", TrialReport),
    ("Clinical Summaries", Summary),
    ("Patient Case Studies", CaseStudy),
    ("default", Default)
  ]

  /** `PROMPT_TEMPLATES.get(content_format, PROMPT_TEMPLATES["default"])`. */
  function Selected(contentFormat: string): TemplateName
  {
    match CT.Get(PromptTemplates, contentFormat)
    case Some(n) => n
    case None => Default
  }

  /** `build_prompt`: the selected entry's system text, and its format string filled in
      with the arguments, the source text stripped first. */
  function BuildPrompt(contentFormat: string, objective: string, audience: string, tone: string,
                       text: string): (r: (string, string))
    ensures r.0 == System(Selected(contentFormat))
    ensures PlainPieces(Template(Selected(contentFormat))) ==>
      Format(Source(Template(Selected(contentFormat))),
             PromptArgs(contentFormat, objective, audience, tone, Strip(text))) == Some(r.1)
  {
    var name := Selected(contentFormat);
    var args := PromptArgs(contentFormat, objective, audience, tone, Strip(text));
    if PlainPieces(Template(name)) then
      FormatSource(Template(name), args);
      (System(name), Render(Template(name), args))
    else
      (System(name), Render(Template(name), args))
  }

  /** The four named templates are the formats of the content hierarchy, in another order;
      any other format, `default` included, gets the default template. */
  lemma TemplateSelection(f: string)
    ensures f in CT.Formats <==> Selected(f) != Default
    ensures f in CT.Formats ==> (f, Selected(f)) in PromptTemplates
  {
    var t := PromptTemplates;
    assert CT.Keys(t) == ["Plain Language Summaries", "Clinical Trial Report", "Clinical Summaries",
                          "Patient Case Studies", "default"];
    assert CT.DistinctKeys(t);
    if f in CT.Formats {
      var j :| 0 <= j < 4 && t[j].0 == f;
      CT.GetAt(t, j);
    } else if f == "default" {
      CT.GetAt(t, 4);
    }
  }

  /** Formatting ignores an argument whose placeholder the template lacks. */
  lemma {:induction false} RenderWithoutFormat(template: seq<Piece>, args: PromptArgs, other: string)
    requires Hole(ContentFormat) !in template
    ensures Render(template, args) == Render(template, args.(contentFormat := other))
  {
    if template != [] {
      assert template[0] != Hole(ContentFormat);
      assert Hole(ContentFormat) !in template[1..];
      RenderWithoutFormat(template[1..], args, other);
    }
  }

  /** The shared lines have no content-format placeholder, whatever their text. */
  lemma BodyWithoutFormat(heading: string, instructions: string)
    ensures Hole(ContentFormat) !in Body(heading, instructions)
  {
  }

  /** Only the default opening line has a content-format placeholder. */
  lemma OpeningHoles(name: TemplateName)
    ensures Hole(ContentFormat) in Opening(name) <==> name == Default
  {
    match name
    case Default =>
      assert Opening(name)[1] == Hole(ContentFormat);
    case PlainLanguage =>
    case TrialReport =>
    case Summary =>
    case CaseStudy =>
  }

  /** For a named format, the content-format argument does not reach the user prompt. */
  lemma NamedFormatIgnored(f: string, objective: string, audience: string, tone: string, text: string,
                           other: string)
    requires f in CT.Formats
    ensures BuildPrompt(f, objective, audience, tone, text).1
         == Render(Template(Selected(f)), PromptArgs(other, objective, audience, tone, Strip(text)))
  {
    var name := Selected(f);
    var args := PromptArgs(f, objective, audience, tone, Strip(text));
    var body := Body(Heading(name), Instructions(name));
    TemplateSelection(f);
    OpeningHoles(name);
    BodyWithoutFormat(Heading(name), Instructions(name));
    RenderConcat(Opening(name), body, args);
    RenderConcat(Opening(name), body, args.(contentFormat := other));
    RenderWithoutFormat(Opening(name), args, other);
    RenderWithoutFormat(body, args, other);
  }

  /** An opening of literal text, the content format and more literal text renders with the
      content format right after the first text. */
  lemma RenderOpening(a: string, b: string, rest: seq<Piece>, args: PromptArgs)
    ensures StartsWith(Render([Lit(a), Hole(ContentFormat), Lit(b)] + rest, args), a + args.contentFormat)
  {
    var t := [Lit(a), Hole(ContentFormat), Lit(b)] + rest;
    assert t[1..][1..] == [Lit(b)] + rest;
    assert Render(t, args) == a + (args.contentFormat + Render(t[1..][1..], args));
    ConcatAssoc(a, args.contentFormat, Render(t[1..][1..], args));
    AppendStartsWith(a + args.contentFormat, Render(t[1..][1..], args));
  }

  /** The default template opens with the content format it was asked for. */
  lemma DefaultNamesFormat(f: string, objective: string, audience: string, tone: string, text: string)
    requires f !in CT.Formats
    ensures StartsWith(BuildPrompt(f, objective, audience, tone, text).1, "\nGenerate a **" + f)
  {
    TemplateSelection(f);
    var name := Selected(f);
    RenderOpening("\nGenerate a **", "**.\n- **Objective**: ", Body(Heading(name), Instructions(name)),
                  PromptArgs(f, objective, audience, tone, Strip(text)));
  }

  /** The source text is stripped before it is placed: surrounding whitespace never reaches
      the prompt. */
  lemma TextStripped(f: string, objective: string, audience: string, tone: string, text: string)
    ensures BuildPrompt(f, objective, audience, tone, text) == BuildPrompt(f, objective, audience, tone, Strip(text))
  {
    StripIdempotent(text);
  }
}
