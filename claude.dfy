/**
 * The email generation service: style lookups, assembly of the legacy and the structured
 * prompt, interpretation of the model's reply, the news summary, the refinement conversation
 * and the prompt information. The fixed texts are a `PromptTexts` parameter (the service's own
 * are `Prompts.SOURCE_TEXTS`), and the language model is a parameter too: a function from the
 * prompt (or the conversation) to the text of its reply, or to the error the call raised.
 */
module Claude {
  import opened Wrappers
  import opened Strings
  import opened Templates
  import opened Prompts

  // ---------------------------------------------------------------------------------------------
  // Style lookups
  // ---------------------------------------------------------------------------------------------

  /**
   * `table[key] || table[fallback]`: the entry for `key` unless it is missing or empty, else the
   * fallback's entry; a missing fallback entry is `undefined`, which a template literal and
   * `replace` both write as the text `undefined`.
   */
  function Lookup(table: map<string, string>, key: string, fallback: string): (r: string)
    ensures key in table && table[key] != "" ==> r == table[key]
    ensures !(key in table && table[key] != "") && fallback in table ==> r == table[fallback]
    ensures r in table.Values || (r == "undefined" && fallback !in table)
  {
    if key in table && table[key] != "" then table[key]
    else if fallback in table then table[fallback]
    else "undefined"
  }

  /** The tone instruction for an optional tone key; an omitted key means `conversational`. */
  function ToneInstructionOf(texts: PromptTexts, tone: Option<string>): (r: string)
    ensures tone.Some? && tone.value in texts.toneModifiers && texts.toneModifiers[tone.value] != "" ==>
              r == texts.toneModifiers[tone.value]
    ensures tone.None? && DEFAULT_TONE in texts.toneModifiers ==> r == texts.toneModifiers[DEFAULT_TONE]
    ensures r in texts.toneModifiers.Values || r == "undefined"
  {
    Lookup(texts.toneModifiers, tone.GetOr(DEFAULT_TONE), DEFAULT_TONE)
  }

  /** The recipient context for an optional role key; an omitted key means `iro`. */
  function RoleContextOf(texts: PromptTexts, role: Option<string>): (r: string)
    ensures role.Some? && role.value in texts.roleContext && texts.roleContext[role.value] != "" ==>
              r == texts.roleContext[role.value]
    ensures role.None? && DEFAULT_ROLE in texts.roleContext ==> r == texts.roleContext[DEFAULT_ROLE]
    ensures r in texts.roleContext.Values || r == "undefined"
  {
    Lookup(texts.roleContext, role.GetOr(DEFAULT_ROLE), DEFAULT_ROLE)
  }

  /** The length guidance for an optional length key; an omitted key means `standard`. */
  function LengthInstructionOf(texts: PromptTexts, length: Option<string>): (r: string)
    ensures (length.Some? && length.value in texts.lengthModifiers &&
             texts.lengthModifiers[length.value] != "") ==> r == texts.lengthModifiers[length.value]
    ensures length.None? && DEFAULT_LENGTH in texts.lengthModifiers ==>
              r == texts.lengthModifiers[DEFAULT_LENGTH]
    ensures r in texts.lengthModifiers.Values || r == "undefined"
  {
    Lookup(texts.lengthModifiers, length.GetOr(DEFAULT_LENGTH), DEFAULT_LENGTH)
  }

  /**
   * With the service's tables every lookup gives a non-empty text: the entry of a known key,
   * and the `conversational`, `iro` or `standard` entry for an omitted or unknown one.
   */
  lemma SourceStyleLookups(texts: PromptTexts, tone: Option<string>, role: Option<string>,
                           length: Option<string>)
    requires texts.toneModifiers == TONE_MODIFIERS && texts.roleContext == ROLE_CONTEXT
    requires texts.lengthModifiers == LENGTH_MODIFIERS
    ensures tone.Some? && tone.value in TONE_MODIFIERS ==>
              ToneInstructionOf(texts, tone) == TONE_MODIFIERS[tone.value]
    ensures !(tone.Some? && tone.value in TONE_MODIFIERS) ==>
              ToneInstructionOf(texts, tone) == TONE_MODIFIERS[DEFAULT_TONE]
    ensures role.Some? && role.value in ROLE_CONTEXT ==>
              RoleContextOf(texts, role) == ROLE_CONTEXT[role.value]
    ensures !(role.Some? && role.value in ROLE_CONTEXT) ==>
              RoleContextOf(texts, role) == ROLE_CONTEXT[DEFAULT_ROLE]
    ensures length.Some? && length.value in LENGTH_MODIFIERS ==>
              LengthInstructionOf(texts, length) == LENGTH_MODIFIERS[length.value]
    ensures !(length.Some? && length.value in LENGTH_MODIFIERS) ==>
              LengthInstructionOf(texts, length) == LENGTH_MODIFIERS[DEFAULT_LENGTH]
    ensures ToneInstructionOf(texts, tone) != "" && RoleContextOf(texts, role) != ""
    ensures LengthInstructionOf(texts, length) != ""
  {
    SourceTablesComplete();
  }

  // ---------------------------------------------------------------------------------------------
  // Requests and prompts
  // ---------------------------------------------------------------------------------------------

  /** The arguments of an email generation; the style keys and the prompt flag may be omitted. */
  datatype EmailRequest = EmailRequest(
    companyName: string,
    contactName: string,
    senderName: string,
    firmName: string,
    newsContext: string,
    tone: Option<string>,
    contactRole: Option<string>,
    length: Option<string>,
    useLegacyPrompt: Option<bool>)

  /** The texts that go into a prompt, with the style keys looked up. */
  datatype PromptValues = PromptValues(
    companyName: string,
    contactName: string,
    senderName: string,
    firmName: string,
    newsContext: string,
    toneInstruction: string,
    roleContext: string,
    lengthInstruction: string)

  function Resolve(texts: PromptTexts, req: EmailRequest): PromptValues {
    PromptValues(req.companyName, req.contactName, req.senderName, req.firmName, req.newsContext,
                 ToneInstructionOf(texts, req.tone), RoleContextOf(texts, req.contactRole),
                 LengthInstructionOf(texts, req.length))
  }

  /** `" at " + firmName` for a firm name, nothing without one. */
  function FirmNameClauseOf(firmName: string): (r: string)
    ensures firmName != "" ==> r == " at " + firmName && EndsWith(r, firmName)
    ensures firmName == "" ==> r == ""
  {
    if firmName != "" then
      var r := " at " + firmName;
      assert r[|r| - |firmName|..] == firmName;
      r
    else ""
  }

  // ---------------------------------------------------------------------------------------------
  // The legacy prompt
  // ---------------------------------------------------------------------------------------------

  /** The legacy prompt up to the sender line: the opening, the style lines and the context. */
  function LegacyContext(texts: PromptTexts, v: PromptValues): (r: seq<string>)
    ensures |r| == 13
  {
    [ texts.legacyOpening,
      "\n\nAdditional style instruction: ", v.toneInstruction,
      "\n\nRecipient context: ", v.roleContext,
      "\n\nLength guidance: ", v.lengthInstruction,
      "\n\nContext for this email:\n- Company: ", v.companyName,
      "\n- Recipient name: ", v.contactName,
      "\n- Sender name: ", v.senderName ]
  }

  /** The optional firm line. */
  function FirmLine(firmName: string): (r: string)
    ensures firmName != "" ==> r == "\n- Sender's firm: " + firmName
    ensures firmName == "" ==> r == ""
  {
    if firmName != "" then "\n- Sender's firm: " + firmName else ""
  }

  /** The legacy prompt after the firm line: the news and the closing instruction. */
  function LegacyClosing(v: PromptValues): (r: seq<string>)
    ensures |r| == 5
  {
    [ "\n\nRecent news about ", v.companyName, ":\n", v.newsContext, "\n\nGenerate the email now." ]
  }

  /** The chunks of the legacy prompt, in order. */
  function LegacyPieces(texts: PromptTexts, v: PromptValues): (r: seq<string>)
    ensures |r| == 19
  {
    LegacyContext(texts, v) + [FirmLine(v.firmName)] + LegacyClosing(v)
  }

  /** The legacy prompt: the fixed opening followed by the style and context lines. */
  function LegacyPrompt(texts: PromptTexts, v: PromptValues): (r: string)
    ensures StartsWith(r, texts.legacyOpening)
    ensures EndsWith(r, LEGACY_CLOSING)
  {
    ConcatEnds(LegacyPieces(texts, v));
    Concat(LegacyPieces(texts, v))
  }

  /** The closing instruction of the legacy prompt. */
  const LEGACY_CLOSING := "\n\nGenerate the email now."

  /**
   * The legacy prompt starts with the fixed opening, ends with the closing instruction, and
   * holds in between, in this order: the tone instruction, the role context, the length
   * guidance, the company, the recipient and the sender, and the news context.
   */
  lemma LegacyPromptOrder(texts: PromptTexts, v: PromptValues)
    ensures StartsWith(LegacyPrompt(texts, v), texts.legacyOpening)
    ensures EndsWith(LegacyPrompt(texts, v), LEGACY_CLOSING)
    ensures InOrder(LegacyPrompt(texts, v),
                    [texts.legacyOpening, v.toneInstruction, v.roleContext, v.lengthInstruction,
                     v.companyName, v.contactName, v.senderName, v.newsContext,
                     "\n\nGenerate the email now."])
  {
    var pieces := LegacyPieces(texts, v);
    ConcatEnds(pieces);
    LegacyPicked(texts, v);
  }

  /** The opening, the values and the closing are pieces 0, 2, 4, 6, 8, 10, 12, 17 and 18. */
  lemma LegacyPicked(texts: PromptTexts, v: PromptValues)
    ensures InOrder(LegacyPrompt(texts, v),
                    [texts.legacyOpening, v.toneInstruction, v.roleContext, v.lengthInstruction,
                     v.companyName, v.contactName, v.senderName, v.newsContext,
                     "\n\nGenerate the email now."])
  {
    var pieces := LegacyPieces(texts, v);
    var at: seq<nat> := [0, 2, 4, 6, 8, 10, 12, 17, 18];
    PickedInOrder(pieces, at, [texts.legacyOpening, v.toneInstruction, v.roleContext,
                               v.lengthInstruction, v.companyName, v.contactName, v.senderName,
                               v.newsContext, "\n\nGenerate the email now."]);
  }

  /**
   * The `- Sender's firm:` line: the prompt is the text up to the sender line, the firm line,
   * and the news and closing after it, so that without a firm name the two texts meet.
   */
  lemma LegacyFirmLine(texts: PromptTexts, v: PromptValues)
    ensures var before := Concat(LegacyContext(texts, v));
            var after := Concat(LegacyClosing(v));
            && LegacyPrompt(texts, v) == before + FirmLine(v.firmName) + after
            && LegacyPrompt(texts, v.(firmName := "")) == before + after
            && EndsWith(before, "\n- Sender name: " + v.senderName)
  {
    var w := v.(firmName := "");
    LegacySplit(texts, v);
    LegacySplit(texts, w);
    assert LegacyContext(texts, w) == LegacyContext(texts, v);
    assert LegacyClosing(w) == LegacyClosing(v);
    ConcatEnds(LegacyContext(texts, v));
  }

  /** The legacy prompt is its context, the firm line and its closing, in turn. */
  lemma LegacySplit(texts: PromptTexts, v: PromptValues)
    ensures LegacyPrompt(texts, v)
         == Concat(LegacyContext(texts, v)) + FirmLine(v.firmName) + Concat(LegacyClosing(v))
  {
    var front, back := LegacyContext(texts, v), LegacyClosing(v);
    ConcatAppend(front + [FirmLine(v.firmName)], back);
    ConcatAppend(front, [FirmLine(v.firmName)]);
    assert Concat([FirmLine(v.firmName)]) == FirmLine(v.firmName) + Concat([]);
  }

  // ---------------------------------------------------------------------------------------------
  // The structured prompt
  // ---------------------------------------------------------------------------------------------

  /** The replacements of the structured prompt, in the order the source applies them. */
  const ORDER: seq<Placeholder> := [FirmNameClause, ContactName, CompanyName, SenderName,
                                    NewsContext, RoleContext, ToneInstruction, LengthInstruction]

  /** Where a placeholder is replaced in `ORDER`. */
  function Position(p: Placeholder): (r: nat)
    ensures r < |ORDER| && ORDER[r] == p
  {
    match p
    case FirmNameClause => 0
    case ContactName => 1
    case CompanyName => 2
    case SenderName => 3
    case NewsContext => 4
    case RoleContext => 5
    case ToneInstruction => 6
    case LengthInstruction => 7
  }

  /** `ORDER` names every placeholder, each exactly once. */
  lemma OrderNamesEveryPlaceholder()
    ensures forall p: Placeholder :: p in ORDER
    ensures forall i :: 0 <= i < |ORDER| ==> Position(ORDER[i]) == i
  {
    forall p: Placeholder
      ensures p in ORDER
    {
      assert ORDER[Position(p)] == p;
    }
    forall i | 0 <= i < |ORDER|
      ensures Position(ORDER[i]) == i
    {
      if i == 0 {
      } else if i == 1 {
      } else if i == 2 {
      } else if i == 3 {
      } else if i == 4 {
      } else if i == 5 {
      } else if i == 6 {
      } else {
        assert i == 7;
      }
    }
  }

  /** The value each placeholder of the structured prompt is replaced by. */
  function Value(v: PromptValues): Placeholder -> string {
    (p: Placeholder) =>
      match p
      case FirmNameClause => FirmNameClauseOf(v.firmName)
      case ContactName => v.contactName
      case CompanyName => v.companyName
      case SenderName => v.senderName
      case NewsContext => v.newsContext
      case RoleContext => v.roleContext
      case ToneInstruction => v.toneInstruction
      case LengthInstruction => v.lengthInstruction
  }

  /**
   * The structured prompt: the base prompt with every occurrence of the token of each
   * placeholder of `ORDER` replaced by its value, one placeholder after the other. When the
   * literal texts of the base template are plain and no value holds `{{` or `$` or ends with
   * `{`, it is the base template with every placeholder filled by its value, and none of the
   * eight tokens is left in it.
   */
  function StructuredPrompt(texts: PromptTexts, v: PromptValues): (r: string)
    ensures WellFormed(texts.base) && PlainValues(v) ==>
              r == Render(Fill(texts.base, (set p | p in ORDER), Value(v)))
              && forall p: Placeholder :: !Contains(r, Token(p))
  {
    if WellFormed(texts.base) && PlainValues(v) then
      OrderNamesEveryPlaceholder();
      FillByReplacement(texts.base, ORDER, Value(v));
      ReplaceChain(Render(texts.base), ValueSteps(ORDER, Value(v)))
    else ReplaceChain(Render(texts.base), ValueSteps(ORDER, Value(v)))
  }

  /**
   * When the values of `v` and `w` differ at most at placeholder `q`, whose value in `v` is the
   * token of `r`, the chain of `v` renders the chain of substitutions of the values of `w`
   * with the hole of `r` put in at `q`'s step.
   */
  lemma ChainWithHole(t: Template, v: PromptValues, w: PromptValues, q: Placeholder, r: Placeholder)
    requires WellFormed(t)
    requires forall p :: p != q ==> Value(v)(p) == Value(w)(p)
    requires Value(v)(q) == Token(r)
    requires PlainValues(w)
    ensures var segments := TextSteps(ORDER, Value(w))[Position(q) := (q, Hole(r))];
            && ReplaceChain(Render(t), ValueSteps(ORDER, Value(v))) == Render(SubstChain(t, segments))
            && forall i :: 0 <= i < |segments| ==> Insertable(segments[i].1)
  {
    var segments := TextSteps(ORDER, Value(w))[Position(q) := (q, Hole(r))];
    OrderNamesEveryPlaceholder();
    SpellsWithHole(ORDER, Value(w), Value(v), Position(q), r);
    ChainRenders(t, ValueSteps(ORDER, Value(v)), segments);
  }

  /** With plain values, the chain of `v` renders the chain of substitutions of its values. */
  lemma ChainOfValues(t: Template, v: PromptValues)
    requires WellFormed(t)
    requires PlainValues(v)
    ensures ReplaceChain(Render(t), ValueSteps(ORDER, Value(v)))
         == Render(SubstChain(t, TextSteps(ORDER, Value(v))))
  {
    SpellsValues(ORDER, Value(v));
    ChainRenders(t, ValueSteps(ORDER, Value(v)), TextSteps(ORDER, Value(v)));
  }

  /** No value of `v` holds `{{` or `$`, or ends with `{`. */
  predicate PlainValues(v: PromptValues) {
    forall p: Placeholder :: Plain(Value(v)(p)) && '$' !in Value(v)(p)
  }

  /**
   * The replacements run in a fixed order: a contact name that is itself the company-name
   * token is rewritten by the later company-name step.
   */
  lemma LaterStepRewritesEarlierValue(texts: PromptTexts, v: PromptValues)
    requires WellFormed(texts.base)
    requires v.contactName == Token(CompanyName)
    requires PlainValues(v.(contactName := v.companyName))
    ensures StructuredPrompt(texts, v) == StructuredPrompt(texts, v.(contactName := v.companyName))
  {
    var w := v.(contactName := v.companyName);
    ContactTokenChain(texts.base, v, w);
    SharedValueChain(texts.base, w);
  }

  /** The chain of a contact name that is the company-name token puts that hole in at step 1. */
  lemma ContactTokenChain(t: Template, v: PromptValues, w: PromptValues)
    requires WellFormed(t)
    requires v.contactName == Token(CompanyName) && w == v.(contactName := v.companyName)
    requires PlainValues(w)
    ensures ReplaceChain(Render(t), ValueSteps(ORDER, Value(v)))
         == Render(SubstChain(t, TextSteps(ORDER, Value(w))[1 := (ContactName, Hole(CompanyName))]))
  {
    ValuesAgreeOffContact(v, w);
    ChainWithHole(t, v, w, ContactName, CompanyName);
  }

  /**
   * With the contact name equal to the company name, putting the company-name hole in at the
   * contact-name step changes nothing.
   */
  lemma SharedValueChain(t: Template, w: PromptValues)
    requires WellFormed(t) && PlainValues(w) && w.contactName == w.companyName
    ensures ReplaceChain(Render(t), ValueSteps(ORDER, Value(w)))
         == Render(SubstChain(t, TextSteps(ORDER, Value(w))[1 := (ContactName, Hole(CompanyName))]))
  {
    var segs := TextSteps(ORDER, Value(w));
    ChainOfValues(t, w);
    var company := Text(w.companyName);
    assert segs[1] == (ContactName, company) && segs[2] == (CompanyName, company);
    ChainThroughHole(t, segs, ContactName, CompanyName, company);
  }

  lemma ValuesAgreeOffContact(v: PromptValues, w: PromptValues)
    requires w == v.(contactName := w.contactName)
    ensures forall p :: p != ContactName ==> Value(v)(p) == Value(w)(p)
  {
  }

  lemma ValuesAgreeOffCompany(v: PromptValues, w: PromptValues)
    requires w == v.(companyName := w.companyName)
    ensures forall p :: p != CompanyName ==> Value(v)(p) == Value(w)(p)
  {
  }

  /**
   * ... while a company name that is itself the contact-name token is put in after the
   * contact-name step has run, and its token stays in the prompt.
   */
  lemma EarlierStepMissesLaterValue(texts: PromptTexts, v: PromptValues)
    requires WellFormed(texts.base) && Hole(CompanyName) in texts.base
    requires v.companyName == Token(ContactName)
    requires PlainValues(v.(companyName := v.contactName))
    ensures Contains(StructuredPrompt(texts, v), Token(ContactName))
  {
    var w := v.(companyName := v.contactName);
    var t := texts.base;
    var segsV := TextSteps(ORDER, Value(w))[2 := (CompanyName, Hole(ContactName))];
    CompanyTokenChain(t, v, w);
    CompanyHoleBecomesContactHole(t, segsV);
    TokensAreHoles(SubstChain(t, segsV), ContactName);
  }

  /** The chain of a company name that is the contact-name token puts that hole in at step 2. */
  lemma CompanyTokenChain(t: Template, v: PromptValues, w: PromptValues)
    requires WellFormed(t)
    requires v.companyName == Token(ContactName) && w == v.(companyName := v.contactName)
    requires PlainValues(w)
    ensures var segments := TextSteps(ORDER, Value(w))[2 := (CompanyName, Hole(ContactName))];
            && ReplaceChain(Render(t), ValueSteps(ORDER, Value(v))) == Render(SubstChain(t, segments))
            && |segments| == |ORDER|
            && forall i :: 0 <= i < |segments| ==> segments[i].0 == ORDER[i] && Insertable(segments[i].1)
  {
    ValuesAgreeOffCompany(v, w);
    ChainWithHole(t, v, w, CompanyName, ContactName);
  }

  /** In the chain with the contact-name hole put in at the company-name step, that hole stays. */
  lemma CompanyHoleBecomesContactHole(t: Template, segments: seq<(Placeholder, Segment)>)
    requires WellFormed(t) && Hole(CompanyName) in t
    requires |segments| == |ORDER| && segments[2] == (CompanyName, Hole(ContactName))
    requires forall i :: 0 <= i < |segments| ==> segments[i].0 == ORDER[i] && Insertable(segments[i].1)
    ensures WellFormed(SubstChain(t, segments)) && Hole(ContactName) in SubstChain(t, segments)
  {
    OrderNamesEveryPlaceholder();
    var j :| 0 <= j < |t| && t[j] == Hole(CompanyName);
    ChainPutsHole(t, segments, j, 2, ContactName);
    ChainWellFormed(t, segments);
  }

  /** A chain of insertable substitutions keeps a template well-formed. */
  lemma {:induction false} ChainWellFormed(t: Template, segments: seq<(Placeholder, Segment)>)
    requires WellFormed(t)
    requires forall i :: 0 <= i < |segments| ==> Insertable(segments[i].1)
    ensures WellFormed(SubstChain(t, segments))
    decreases |segments|
  {
    if |segments| > 0 {
      SubstWellFormed(t, segments[0].0, segments[0].1);
      assert forall i :: 0 <= i < |segments[1..]| ==> segments[1..][i] == segments[i + 1];
      ChainWellFormed(Subst(t, segments[0].0, segments[0].1), segments[1..]);
    }
  }

  // ---------------------------------------------------------------------------------------------
  // Generation
  // ---------------------------------------------------------------------------------------------

  /** The prompt of a request: structured unless the legacy prompt is asked for. */
  function Prompt(texts: PromptTexts, req: EmailRequest): (r: string)
    ensures req.useLegacyPrompt == Some(true) ==> r == LegacyPrompt(texts, Resolve(texts, req))
    ensures req.useLegacyPrompt != Some(true) ==> r == StructuredPrompt(texts, Resolve(texts, req))
  {
    var v := Resolve(texts, req);
    if req.useLegacyPrompt.GetOr(false) then LegacyPrompt(texts, v) else StructuredPrompt(texts, v)
  }

  /**
   * A legacy prompt starts with the fixed opening and ends with the closing instruction; a
   * structured one, for a well-formed template and plain values, is the filled template and
   * holds none of the eight tokens.
   */
  lemma PromptShape(texts: PromptTexts, req: EmailRequest)
    ensures req.useLegacyPrompt == Some(true) ==>
              StartsWith(Prompt(texts, req), texts.legacyOpening)
              && EndsWith(Prompt(texts, req), LEGACY_CLOSING)
    ensures (req.useLegacyPrompt != Some(true) && WellFormed(texts.base) &&
             PlainValues(Resolve(texts, req))) ==>
              && Prompt(texts, req) == Render(Fill(texts.base, (set p | p in ORDER), Value(Resolve(texts, req))))
              && forall p: Placeholder :: !Contains(Prompt(texts, req), Token(p))
  {
    var v := Resolve(texts, req);
    if req.useLegacyPrompt == Some(true) {
      assert Prompt(texts, req) == LegacyPrompt(texts, v);
    } else {
      assert Prompt(texts, req) == StructuredPrompt(texts, v);
    }
  }

  /** Omitted style keys and an omitted prompt flag mean conversational, iro, standard, structured. */
  lemma OmittedArgumentsAreDefaults(texts: PromptTexts, req: EmailRequest)
    requires req.tone.None? && req.contactRole.None? && req.length.None? && req.useLegacyPrompt.None?
    ensures Prompt(texts, req)
         == Prompt(texts, req.(tone := Some(DEFAULT_TONE), contactRole := Some(DEFAULT_ROLE),
                               length := Some(DEFAULT_LENGTH), useLegacyPrompt := Some(false)))
    ensures Prompt(texts, req) == StructuredPrompt(texts, Resolve(texts, req))
  {
    var full := req.(tone := Some(DEFAULT_TONE), contactRole := Some(DEFAULT_ROLE),
                     length := Some(DEFAULT_LENGTH), useLegacyPrompt := Some(false));
    assert Resolve(texts, req) == Resolve(texts, full);
  }

  /** The part of a JSON value the service looks at. */
  datatype JsonValue = JString(s: string) | JNumber(n: int) | JNull | JOther

  /** A property read: `undefined`, or a value. */
  datatype Field = Undefined | Defined(value: JsonValue)

  /** What `JSON.parse` makes of the reply. */
  datatype ParseOutcome =
    | ParsedObject(email: Field, citedArticleIndex: Field)  // an object (or array), with its two fields
    | ParsedNull                                            // `null`: reading a property throws
    | ParsedPrimitive                                       // a string, number or boolean: both fields undefined
    | NotJson                                               // the parse itself throws

  datatype EmailResult = EmailResult(email: Field, citedArticleIndex: Field, prompt: string)

  /**
   * The result for a reply `raw` that parses to `outcome`: the two fields of a parsed value,
   * or, when parsing or reading a field throws, the raw reply as the email and a null index.
   */
  function InterpretReply(raw: string, outcome: ParseOutcome, prompt: string): (r: EmailResult)
    ensures r.prompt == prompt
    ensures outcome.ParsedObject? ==>
              r.email == outcome.email && r.citedArticleIndex == outcome.citedArticleIndex
    ensures outcome.ParsedPrimitive? ==> r.email == Undefined && r.citedArticleIndex == Undefined
    ensures (outcome.ParsedNull? || outcome.NotJson?) ==>
              r.email == Defined(JString(raw)) && r.citedArticleIndex == Defined(JNull)
  {
    match outcome
    case ParsedObject(email, cited) => EmailResult(email, cited, prompt)
    case ParsedPrimitive => EmailResult(Undefined, Undefined, prompt)
    case _ => EmailResult(Defined(JString(raw)), Defined(JNull), prompt)
  }

  /**
   * `generateEmail`: one call of the model with the prompt of the request, whose reply is
   * interpreted; an error of the call is passed on.
   */
  function GenerateEmail(texts: PromptTexts, req: EmailRequest, complete: string -> Result<string, string>,
                         parse: string -> ParseOutcome): (r: Result<EmailResult, string>)
    ensures complete(Prompt(texts, req)).Failure? ==> r == Failure(complete(Prompt(texts, req)).error)
    ensures complete(Prompt(texts, req)).Success? ==>
              var raw := complete(Prompt(texts, req)).value;
              r.Success? && r.value.prompt == Prompt(texts, req)
              && r.value == InterpretReply(raw, parse(raw), Prompt(texts, req))
  {
    var prompt := Prompt(texts, req);
    match complete(prompt)
    case Failure(e) => Failure(e)
    case Success(raw) => Success(InterpretReply(raw, parse(raw), prompt))
  }

  // ---------------------------------------------------------------------------------------------
  // News summary
  // ---------------------------------------------------------------------------------------------

  const SUMMARY_TASK := "<task>\nSummarize the key investor-relevant themes from recent news about "
  const SUMMARY_NEWS := " in 1-2 sentences.\nFocus on what investors and analysts are paying attention to.\n</task>\n\n<news>\n"
  const SUMMARY_FORMAT := "\n</news>\n\n<output_format>\nWrite a single concise summary (1-2 sentences, under 40 words) that captures the main themes.\nStart directly with the summary. No preamble like \"Here's\" or \"The news shows\".\nExample: \"Recent coverage focuses on margin pressures amid rising input costs and questions about the international expansion timeline.\"\n</output_format>"

  /** The summary prompt: a task naming the company, the news, and the output format. */
  function NewsSummaryPrompt(companyName: string, newsContext: string): (r: string)
    ensures StartsWith(r, SUMMARY_TASK + companyName)
    ensures EndsWith(r, newsContext + SUMMARY_FORMAT)
  {
    FiveParts(SUMMARY_TASK, companyName, SUMMARY_NEWS, newsContext, SUMMARY_FORMAT);
    SUMMARY_TASK + companyName + SUMMARY_NEWS + newsContext + SUMMARY_FORMAT
  }

  /** The summary prompt names the company and then holds the news context. */
  lemma NewsSummaryMentions(companyName: string, newsContext: string)
    ensures InOrder(NewsSummaryPrompt(companyName, newsContext), [companyName, newsContext])
  {
    InOrderBetween(SUMMARY_TASK, companyName, SUMMARY_NEWS, newsContext, SUMMARY_FORMAT);
  }

  /** `generateNewsSummary`: the model's reply to the summary prompt, trimmed. */
  function GenerateNewsSummary(companyName: string, newsContext: string,
                               complete: string -> Result<string, string>): (r: Result<string, string>)
    ensures var reply := complete(NewsSummaryPrompt(companyName, newsContext));
            && (reply.Failure? ==> r == Failure(reply.error))
            && (reply.Success? ==> r.Success? && r.value == Trim(reply.value) && Trimmed(r.value))
  {
    match complete(NewsSummaryPrompt(companyName, newsContext))
    case Failure(e) => Failure(e)
    case Success(text) => Success(Trim(text))
  }

  // ---------------------------------------------------------------------------------------------
  // Refinement
  // ---------------------------------------------------------------------------------------------

  datatype Role = User | Assistant

  datatype Message = Message(role: Role, content: string)

  const REVISE_LEAD := "Revise the email based on this instruction: "
  const REVISE_TAIL := "\n\nReturn ONLY the complete revised email (including Subject: line). No JSON, no explanation."

  /** The user turn asking for a revision: it starts with the lead and the instruction, verbatim. */
  function RefinementRequest(instruction: string): (r: string)
    ensures StartsWith(r, REVISE_LEAD + instruction)
    ensures OccursAt(r, instruction, |REVISE_LEAD|) && Contains(r, instruction)
  {
    Surrounded(REVISE_LEAD, instruction, REVISE_TAIL);
    REVISE_LEAD + instruction + REVISE_TAIL
  }

  datatype Refinement = Refinement(email: string, updatedMessages: seq<Message>)

  /**
   * `refineEmail`: the conversation so far and a user turn with the instruction go to the model;
   * its trimmed reply is the revised email and closes the conversation.
   */
  function RefineEmail(messages: seq<Message>, instruction: string,
                       chat: seq<Message> -> Result<string, string>): (r: Result<Refinement, string>)
    ensures var asked := messages + [Message(User, RefinementRequest(instruction))];
            && (chat(asked).Failure? ==> r == Failure(chat(asked).error))
            && (chat(asked).Success? ==>
                  && r.Success?
                  && r.value.email == Trim(chat(asked).value)
                  && r.value.updatedMessages == asked + [Message(Assistant, r.value.email)])
    ensures r.Success? ==>
              var u := r.value.updatedMessages;
              && |u| == |messages| + 2
              && u[..|messages|] == messages
              && u[|messages|] == Message(User, RefinementRequest(instruction))
              && u[|u| - 1] == Message(Assistant, r.value.email)
              && Trimmed(r.value.email)
  {
    var asked := messages + [Message(User, RefinementRequest(instruction))];
    match chat(asked)
    case Failure(e) => Failure(e)
    case Success(text) =>
      var revised := Trim(text);
      Success(Refinement(revised, asked + [Message(Assistant, revised)]))
  }

  /** Turns alternate, starting with the user. */
  predicate Alternates(messages: seq<Message>) {
    forall k :: 0 <= k < |messages| ==> messages[k].role == (if k % 2 == 0 then User else Assistant)
  }

  /**
   * A conversation of whole exchanges stays one after a refinement, with one exchange more,
   * so a conversation built by refinements alone alternates user and assistant turns.
   */
  lemma RefinementKeepsAlternation(messages: seq<Message>, instruction: string,
                                   chat: seq<Message> -> Result<string, string>)
    requires Alternates(messages) && |messages| % 2 == 0
    requires RefineEmail(messages, instruction, chat).Success?
    ensures var u := RefineEmail(messages, instruction, chat).value.updatedMessages;
            Alternates(u) && |u| % 2 == 0
  {
    var u := RefineEmail(messages, instruction, chat).value.updatedMessages;
    assert u == messages + [u[|messages|], u[|messages| + 1]];
    ExchangeKeepsAlternation(messages, u[|messages|], u[|messages| + 1]);
  }

  /** A whole exchange, user then assistant, appended to whole exchanges. */
  lemma ExchangeKeepsAlternation(messages: seq<Message>, asked: Message, answered: Message)
    requires Alternates(messages) && |messages| % 2 == 0
    requires asked.role == User && answered.role == Assistant
    ensures Alternates(messages + [asked, answered]) && |messages + [asked, answered]| % 2 == 0
  {
    var u := messages + [asked, answered];
    forall k | 0 <= k < |u|
      ensures u[k].role == (if k % 2 == 0 then User else Assistant)
    {
      if k < |messages| {
        assert u[k] == messages[k];
      }
    }
  }

  // ---------------------------------------------------------------------------------------------
  // Prompt information
  // ---------------------------------------------------------------------------------------------

  datatype DynamicInput = DynamicInput(name: string, description: string)

  datatype PromptInfo = PromptInfo(
    basePrompt: string,
    legacyPrompt: string,
    toneModifiers: map<string, string>,
    roleContext: map<string, string>,
    lengthModifiers: map<string, string>,
    dynamicInputs: seq<DynamicInput>,
    promptVersion: string)

  /**
   * `getPromptInfo`: the prompt texts and tables. Each non-empty table entry is what generation
   * uses for that key, the base prompt is the text of the template the structured prompt
   * fills, and every dynamic input but the firm name is the name of a placeholder whose token
   * the structured prompt replaces.
   */
  function GetPromptInfo(texts: PromptTexts): (info: PromptInfo)
    ensures info.basePrompt == Render(texts.base) && info.legacyPrompt == texts.legacyOpening
    ensures info.toneModifiers == texts.toneModifiers && info.roleContext == texts.roleContext
    ensures info.lengthModifiers == texts.lengthModifiers
    ensures info.dynamicInputs == DYNAMIC_INPUTS && info.promptVersion == "v2-structured"
    ensures forall k :: k in info.toneModifiers && info.toneModifiers[k] != "" ==>
              ToneInstructionOf(texts, Some(k)) == info.toneModifiers[k]
    ensures forall k :: k in info.roleContext && info.roleContext[k] != "" ==>
              RoleContextOf(texts, Some(k)) == info.roleContext[k]
    ensures forall k :: k in info.lengthModifiers && info.lengthModifiers[k] != "" ==>
              LengthInstructionOf(texts, Some(k)) == info.lengthModifiers[k]
    ensures forall i :: 0 <= i < |info.dynamicInputs| && info.dynamicInputs[i].name != "firmName" ==>
              exists p :: p in ORDER && Name(p) == info.dynamicInputs[i].name
  {
    DynamicInputsArePlaceholders();
    PromptInfo(Render(texts.base), texts.legacyOpening, texts.toneModifiers, texts.roleContext,
               texts.lengthModifiers, DYNAMIC_INPUTS, "v2-structured")
  }

  /** The inputs a caller supplies, as `getPromptInfo` lists them. */
  const DYNAMIC_INPUTS := [
    DynamicInput("companyName", "The target company name or ticker"),
    DynamicInput("contactName", "The recipient's name"),
    DynamicInput("senderName", "Your first name for the sign-off"),
    DynamicInput("firmName", "Your firm name"),
    DynamicInput("newsContext", "Recent news articles about the company (fetched automatically)") ]

  /** Each listed input but the firm name is the name of a placeholder of `ORDER`. */
  lemma DynamicInputsArePlaceholders()
    ensures forall i :: 0 <= i < |DYNAMIC_INPUTS| && DYNAMIC_INPUTS[i].name != "firmName" ==>
              exists p :: p in ORDER && Name(p) == DYNAMIC_INPUTS[i].name
  {
    OrderNamesEveryPlaceholder();
    assert DYNAMIC_INPUTS[3].name == "firmName";
    forall i | 0 <= i < |DYNAMIC_INPUTS| && i != 3
      ensures exists p :: p in ORDER && Name(p) == DYNAMIC_INPUTS[i].name
    {
      if i == 0 {
        assert Name(CompanyName) == DYNAMIC_INPUTS[i].name;
      } else if i == 1 {
        assert Name(ContactName) == DYNAMIC_INPUTS[i].name;
      } else if i == 2 {
        assert Name(SenderName) == DYNAMIC_INPUTS[i].name;
      } else {
        assert i == 4;
        assert Name(NewsContext) == DYNAMIC_INPUTS[i].name;
      }
    }
  }
}
