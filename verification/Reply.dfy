/** From the model's answer to the reply that is sent: acceptance, post-validation and composition. The model's
    output is arbitrary throughout. */
module Reply {
  import opened Prelude
  import opened Text

  datatype Intent =
    | Greeting | ProductInquiry | PricingInquiry | Availability | BookingRequest | OrderStatus | SupportRequest
    | Complaint | Cancellation | RefundRequest | LocationHours | HumanAgentRequest | OptIn | OptOut | Unknown

  datatype Flag =
    | PromptInjection | RestrictedTopic | MedicalAdvice | LegalAdvice | FinancialAdvice | SelfHarm | Abuse
    | PiiRequest | OutOfScope

  datatype Reason =
    | LowConfidence | CustomerRequest | ComplaintReason | LegalThreat | SafetyConcern | RestrictedReason
    | SensitiveAction | NoKnowledge | LlmUnavailable

  /** What the model says, and the same after validation. */
  datatype Analysis = Analysis(
    intent: Intent, confidence: real, missing: seq<string>, proposed: string,
    requiresHuman: bool, flags: seq<Flag>, sources: seq<string>)

  /** The configuration the pipeline reads: thresholds, limits, and the fixed texts, which are arbitrary. `scrub`
      stands for the removal of leaked internals and markdown. */
  datatype Config = Config(
    enabled: set<Intent>, escalate: real, reply: real, maxChars: nat, scrub: string -> string,
    unavailable: string, noKnowledge: string, emergency: Option<string>, sorry: string, optOutText: string,
    optInText: string, handOver: string, acknowledge: Intent -> string, greeting: string, clarify: seq<string> -> string)

  /** What the configuration schema enforces. */
  predicate ConfigOk(c: Config) {
    0.0 <= c.escalate <= c.reply <= 1.0 && 50 <= c.maxChars <= 4096 && OptOut in c.enabled && HumanAgentRequest in c.enabled
  }

  datatype BotReply = BotReply(
    text: string, intent: Intent, confidence: real, escalate: bool, reason: Option<Reason>,
    pauseBot: bool, sources: seq<string>, deterministic: bool)

  const GROUNDING_REQUIRED: set<Intent> := {ProductInquiry, PricingInquiry, Availability, OrderStatus, LocationHours}

  function Min(a: real, b: real): real { if b < a then b else a }

  function Max(a: real, b: real): real { if b > a then b else a }

  // ------------------------------------------------------------------ acceptance and post-validation

  /** The schema clamps the confidence, and a safety flag always asks for a person. */
  function Accept(raw: Analysis): (r: Analysis)
    ensures 0.0 <= r.confidence <= 1.0 && (0.0 <= raw.confidence <= 1.0 ==> r.confidence == raw.confidence)
    ensures (raw.confidence > 1.0 ==> r.confidence == 1.0) && (raw.confidence < 0.0 ==> r.confidence == 0.0)
    ensures (r.flags != [] ==> r.requiresHuman) && (raw.requiresHuman ==> r.requiresHuman)
    ensures r.flags == [] && !raw.requiresHuman ==> !r.requiresHuman
  {
    raw.(confidence := Min(1.0, Max(0.0, raw.confidence)), requiresHuman := raw.requiresHuman || raw.flags != [])
  }

  function KeepKnown(sources: seq<string>, known: seq<string>): seq<string> {
    if sources == [] then []
    else (if sources[0] in known then [sources[0]] else []) + KeepKnown(sources[1..], known)
  }

  /** Intents that need no retrieved context. */
  predicate Exempt(i: Intent) { i == Greeting || i == OptIn || i == OptOut || i == HumanAgentRequest }

  function PostValidate(c: Config, r: Analysis, known: seq<string>): Analysis {
    var disabled := r.intent !in c.enabled;
    var intent := if disabled then Unknown else r.intent;
    var conf1 := if disabled then Min(r.confidence, c.escalate) else r.confidence;
    var bare := known == [] && !Exempt(r.intent);
    var conf2 := if bare then Min(conf1, c.escalate) else conf1;
    var kept := KeepKnown(r.sources, known);
    var dropped := r.sources != [] && |kept| != |r.sources|;
    var conf3 := if dropped && kept == [] then Min(conf2, c.escalate) else conf2;
    r.(intent := intent, confidence := conf3,
       sources := if dropped then kept else if bare then [] else r.sources)
  }

  predicate AllKnown(sources: seq<string>, known: seq<string>) { forall k | 0 <= k < |sources| :: sources[k] in known }

  lemma {:induction false} KeptAreKnown(sources: seq<string>, known: seq<string>)
    ensures AllKnown(KeepKnown(sources, known), known)
    ensures |KeepKnown(sources, known)| <= |sources|
    ensures |KeepKnown(sources, known)| == |sources| <==> AllKnown(sources, known)
    ensures AllKnown(sources, known) ==> KeepKnown(sources, known) == sources
    ensures KeepKnown(sources, known) == [] <==> forall k | 0 <= k < |sources| :: sources[k] !in known
    decreases |sources|
  {
    if sources != [] {
      KeptAreKnown(sources[1..], known);
      assert forall k | 1 <= k < |sources| :: sources[k] == sources[1..][k-1];
    }
  }

  /** A claimed source is kept where it stands if it was retrieved, and dropped otherwise. */
  lemma {:induction false} KeptEach(before: seq<string>, source: string, after: seq<string>, known: seq<string>)
    ensures KeepKnown(before + [source] + after, known) ==
            KeepKnown(before, known) + (if source in known then [source] else []) + KeepKnown(after, known)
    decreases |before|
  {
    if before == [] {
      assert ([] + [source] + after)[1..] == after;
    } else {
      assert (before + [source] + after)[1..] == before[1..] + [source] + after;
      KeptEach(before[1..], source, after, known);
    }
  }

  /** Whatever the model claims: confidence never rises, the sources left are retrieved chunks, a claim without
      context or with only invented sources is capped at the escalation threshold, and the intent is enabled or
      unknown. */
  lemma PostValidationOnlyLowers(c: Config, r: Analysis, known: seq<string>)
    ensures var v := PostValidate(c, r, known);
            && v.confidence <= r.confidence
            && AllKnown(v.sources, known)
            && (v.intent in c.enabled || v.intent == Unknown)
            && (v.intent != r.intent ==> v.confidence <= c.escalate)
            && (known == [] && v.intent != Greeting && v.intent != OptIn && v.intent != OptOut && v.intent != HumanAgentRequest ==>
                  v.confidence <= c.escalate && v.sources == [])
            && (r.sources != [] && v.sources == [] ==> v.confidence <= c.escalate)
  {
    KeptAreKnown(r.sources, known);
    if known == [] { NothingKept(r.sources); }
  }

  lemma {:induction false} NothingKept(sources: seq<string>)
    ensures KeepKnown(sources, []) == []
    decreases |sources|
  {
    if sources != [] { NothingKept(sources[1..]); }
  }

  // ------------------------------------------------------------------ the length clamp

  function Boundary(window: string): int {
    var at := (pat: string) => match RFind(window, pat, |window|) case None => -1 case Some(i) => i;
    var a, b, d := at(". "), at("! "), at("? ");
    if a >= b && a >= d then a else if b >= d then b else d
  }

  lemma BoundaryIsAMark(window: string)
    ensures -1 <= Boundary(window) < |window|
    ensures Boundary(window) >= 0 ==>
              OccursAt(window, ". ", Boundary(window)) || OccursAt(window, "! ", Boundary(window)) ||
              OccursAt(window, "? ", Boundary(window))
    ensures forall i | OccursAt(window, ". ", i) || OccursAt(window, "! ", i) || OccursAt(window, "? ", i) :: i <= Boundary(window)
  {
    hide RFind;
    RFindIsLast(window, ". ", |window|);
    RFindIsLast(window, "! ", |window|);
    RFindIsLast(window, "? ", |window|);
    assert forall i | OccursAt(window, ". ", i) || OccursAt(window, "! ", i) || OccursAt(window, "? ", i) :: i < |window|;
  }

  function Clamp(cleaned: string, max: nat): string {
    if |cleaned| <= max then cleaned
    else
      var window := cleaned[..max];
      var boundary := Boundary(window);
      BoundaryIsAMark(window);
      if 2 * boundary > max then window[..boundary+1] else RStrip(window)
  }

  function Sanitise(c: Config, text: string): string { Clamp(Strip(c.scrub(text)), c.maxChars) }

  predicate SentenceMark(ch: char) { ch == '.' || ch == '!' || ch == '?' }

  /** The clamp returns a prefix within the limit. A text that fits is left alone. A longer one is cut after the
      last sentence mark in the window that a space follows, if that is past the middle; otherwise only the
      trailing whitespace of the window goes. A text that starts visibly never becomes empty. */
  lemma ClampKeepsAPrefix(cleaned: string, max: nat)
    ensures |Clamp(cleaned, max)| <= max && Clamp(cleaned, max) <= cleaned
    ensures |cleaned| <= max ==> Clamp(cleaned, max) == cleaned
    ensures |cleaned| > max && 2 * Boundary(cleaned[..max]) > max ==>
              && |Clamp(cleaned, max)| == Boundary(cleaned[..max]) + 1
              && 2 * |Clamp(cleaned, max)| > max
              && SentenceMark(Clamp(cleaned, max)[|Clamp(cleaned, max)|-1])
    ensures |cleaned| > max && 2 * Boundary(cleaned[..max]) <= max ==>
              && AllSpace(cleaned[|Clamp(cleaned, max)|..max])
              && (Clamp(cleaned, max) != "" ==> !IsSpace(Clamp(cleaned, max)[|Clamp(cleaned, max)|-1]))
    ensures max > 0 && cleaned != "" && !IsSpace(cleaned[0]) ==> Clamp(cleaned, max) != ""
  {
    hide RStrip, IsSpace, Boundary;
    if |cleaned| > max {
      var window := cleaned[..max];
      BoundaryIsAMark(window);
      MarkAt(window, Boundary(window));
      RStripSplits(window);
      assert window[|RStrip(window)|..] == cleaned[|RStrip(window)|..max];
      if window != "" && !IsSpace(window[0]) { FirstSurvives(window); }
    }
  }

  lemma MarkAt(s: string, i: int)
    ensures OccursAt(s, ". ", i) || OccursAt(s, "! ", i) || OccursAt(s, "? ", i) ==>
              0 <= i < |s| && SentenceMark(s[i])
  {
    if 0 <= i && i + 2 <= |s| { assert s[i..i+2][0] == s[i]; }
  }

  lemma {:induction false} FirstSurvives(s: string)
    requires s != "" && !IsSpace(s[0])
    ensures RStrip(s) != ""
    decreases |s|
  {
    if |s| > 1 && IsSpace(s[|s|-1]) { FirstSurvives(s[..|s|-1]); }
  }

  /** Sanitised texts fit the limit and are empty only if nothing visible survives the scrubbing. */
  lemma SanitisedFits(c: Config, text: string)
    requires ConfigOk(c)
    ensures |Sanitise(c, text)| <= c.maxChars
    ensures Sanitise(c, text) == "" <==> Strip(c.scrub(text)) == ""
  {
    hide Clamp, Strip, IsSpace;
    StripSplits(c.scrub(text));
    ClampKeepsAPrefix(Strip(c.scrub(text)), c.maxChars);
  }

  // ------------------------------------------------------------------ composition

  function Fixed(c: Config, text: string, intent: Intent, confidence: real): BotReply {
    BotReply(Sanitise(c, text), intent, confidence, false, None, false, [], true)
  }

  function HandOver(c: Config, text: string, intent: Intent, confidence: real, reason: Reason, pause: bool): BotReply {
    BotReply(Sanitise(c, text), intent, confidence, true, Some(reason), pause, [], true)
  }

  /** The reply to a flagged message. */
  function Flagged(c: Config, r: Analysis): BotReply
    requires r.flags != []
  {
    var flag := r.flags[0];
    if flag == SelfHarm then
      var text := if c.emergency.Some? && c.emergency.value != "" then c.emergency.value else c.noKnowledge;
      HandOver(c, text, r.intent, r.confidence, SafetyConcern, false)
    else if flag == PromptInjection then HandOver(c, c.noKnowledge, r.intent, r.confidence, RestrictedReason, false)
    else if r.intent == Complaint || flag == LegalAdvice || flag == Abuse then
      HandOver(c, c.sorry, r.intent, r.confidence, if flag == LegalAdvice then LegalThreat else ComplaintReason, false)
    else HandOver(c, c.noKnowledge, r.intent, r.confidence, RestrictedReason, false)
  }

  /** The model's own text, with the outside-hours suffix if there is room. */
  function Drafted(c: Config, r: Analysis, suffix: string): BotReply {
    var text := Sanitise(c, r.proposed);
    if text == "" then HandOver(c, c.noKnowledge, r.intent, r.confidence, NoKnowledge, false)
    else
      BotReply(if suffix != "" && |text| + |suffix| <= c.maxChars then text + suffix else text,
               r.intent, r.confidence, false, None, false, r.sources, false)
  }

  /** The decision order. `suffix` is the outside-hours text, empty inside business hours. */
  function Compose(c: Config, r: Analysis, hasContext: bool, suffix: string, llmFailed: bool): BotReply {
    if llmFailed then HandOver(c, c.unavailable, r.intent, 0.0, LlmUnavailable, false)
    else if r.flags != [] then Flagged(c, r)
    else if r.intent == OptOut then Fixed(c, c.optOutText, OptOut, 1.0)
    else if r.intent == OptIn then Fixed(c, c.optInText, OptIn, 1.0)
    else if r.intent == HumanAgentRequest then HandOver(c, c.handOver, HumanAgentRequest, 1.0, CustomerRequest, true)
    else if r.intent == Complaint || r.intent == RefundRequest || r.intent == Cancellation then
      HandOver(c, c.acknowledge(r.intent), r.intent, Max(r.confidence, 0.9),
               if r.intent == Complaint then ComplaintReason else SensitiveAction, r.intent == Complaint)
    else if r.intent == Greeting && Strip(r.proposed) == "" then
      Fixed(c, c.greeting + suffix, Greeting, Max(r.confidence, 0.9))
    else if r.confidence < c.escalate || r.requiresHuman then
      HandOver(c, c.noKnowledge, r.intent, r.confidence, LowConfidence, false)
    else if r.confidence < c.reply then Fixed(c, c.clarify(r.missing), r.intent, r.confidence)
    else if r.intent in GROUNDING_REQUIRED && !(hasContext && r.sources != []) then
      HandOver(c, c.noKnowledge, r.intent, r.confidence, NoKnowledge, false)
    else Drafted(c, r, suffix)
  }

  /** Every composed reply fits the limit. */
  lemma EveryReplyFits(c: Config, r: Analysis, hasContext: bool, suffix: string, llmFailed: bool)
    requires ConfigOk(c)
    ensures |Compose(c, r, hasContext, suffix, llmFailed).text| <= c.maxChars
  {
    hide Sanitise, Strip;
    forall text: string ensures |Sanitise(c, text)| <= c.maxChars { SanitisedFits(c, text); }
  }

  /** Intents answered from fixed texts before confidence is looked at. */
  predicate Settled(r: Analysis) {
    r.intent in {OptOut, OptIn, HumanAgentRequest, Complaint, RefundRequest, Cancellation} ||
    (r.intent == Greeting && Strip(r.proposed) == "")
  }

  predicate LacksGrounding(r: Analysis, hasContext: bool) {
    r.intent in GROUNDING_REQUIRED && (!hasContext || r.sources == [])
  }

  /** The model's text is used exactly when nothing earlier settles the message and the answer is confident, needs
      no person, is grounded where it must be, and survives sanitising. */
  lemma ComposeDrafts(c: Config, r: Analysis, hasContext: bool, suffix: string, llmFailed: bool)
    requires ConfigOk(c)
    ensures !Compose(c, r, hasContext, suffix, llmFailed).deterministic <==>
            !llmFailed && r.flags == [] && !Settled(r) && r.confidence >= c.reply && !r.requiresHuman &&
            !LacksGrounding(r, hasContext) && Sanitise(c, r.proposed) != ""
  {
    hide Sanitise, Strip;
  }

  /** A reply hands over to a person exactly when the model failed, a flag is raised, the intent is for a person,
      or an unsettled message is below the lower threshold, asks for a person, or is confident but has no usable
      grounded answer; between the thresholds the bot asks back instead. */
  lemma ComposeEscalates(c: Config, r: Analysis, hasContext: bool, suffix: string, llmFailed: bool)
    requires ConfigOk(c)
    ensures Compose(c, r, hasContext, suffix, llmFailed).escalate <==>
            || llmFailed || r.flags != []
            || r.intent in {HumanAgentRequest, Complaint, RefundRequest, Cancellation}
            || (!Settled(r) && (r.confidence < c.escalate || r.requiresHuman))
            || (!Settled(r) && r.confidence >= c.reply && (LacksGrounding(r, hasContext) || Sanitise(c, r.proposed) == ""))
    ensures Compose(c, r, hasContext, suffix, llmFailed).escalate <==> Compose(c, r, hasContext, suffix, llmFailed).reason.Some?
  {
    hide Sanitise, Strip;
  }

  /** A request for a person or a complaint, without a safety flag, pauses the bot; nothing else does. */
  lemma ComposePauses(c: Config, r: Analysis, hasContext: bool, suffix: string, llmFailed: bool)
    ensures Compose(c, r, hasContext, suffix, llmFailed).pauseBot <==>
            !llmFailed && r.flags == [] && (r.intent == HumanAgentRequest || r.intent == Complaint)
    ensures Compose(c, r, hasContext, suffix, llmFailed).pauseBot ==> Compose(c, r, hasContext, suffix, llmFailed).escalate
  {
    hide Sanitise, Strip;
  }

  /** Which fixed text answers which message, and why a person is called in. */
  lemma ComposeSays(c: Config, r: Analysis, hasContext: bool, suffix: string, llmFailed: bool)
    ensures var reply := Compose(c, r, hasContext, suffix, llmFailed);
            && (llmFailed ==> reply.text == Sanitise(c, c.unavailable) && reply.reason == Some(LlmUnavailable))
            && (!llmFailed && r.flags != [] ==>
                  var flag := r.flags[0];
                  var grievance := flag != SelfHarm && flag != PromptInjection &&
                                   (r.intent == Complaint || flag == LegalAdvice || flag == Abuse);
                  && (flag == SelfHarm ==> reply.reason == Some(SafetyConcern))
                  && (flag == SelfHarm && c.emergency.Some? && c.emergency.value != "" ==>
                        reply.text == Sanitise(c, c.emergency.value))
                  && (grievance ==> reply.text == Sanitise(c, c.sorry))
                  && (grievance ==> reply.reason == Some(if flag == LegalAdvice then LegalThreat else ComplaintReason))
                  && (!grievance && (flag != SelfHarm || c.emergency == None || c.emergency == Some("")) ==>
                        reply.text == Sanitise(c, c.noKnowledge))
                  && (!grievance && flag != SelfHarm ==> reply.reason == Some(RestrictedReason)))
            && (!llmFailed && r.flags == [] ==>
                  && (r.intent == OptOut ==> reply == Fixed(c, c.optOutText, OptOut, 1.0))
                  && (r.intent == OptIn ==> reply == Fixed(c, c.optInText, OptIn, 1.0))
                  && (r.intent == HumanAgentRequest ==>
                        reply.text == Sanitise(c, c.handOver) && reply.reason == Some(CustomerRequest))
                  && (r.intent in {Complaint, RefundRequest, Cancellation} ==>
                        && reply.text == Sanitise(c, c.acknowledge(r.intent))
                        && reply.reason == Some(if r.intent == Complaint then ComplaintReason else SensitiveAction))
                  && (r.intent == Greeting && Strip(r.proposed) == "" ==> reply.text == Sanitise(c, c.greeting + suffix))
                  && (!Settled(r) && (r.confidence < c.escalate || r.requiresHuman) ==>
                        reply.text == Sanitise(c, c.noKnowledge) && reply.reason == Some(LowConfidence))
                  && (!Settled(r) && c.escalate <= r.confidence < c.reply && !r.requiresHuman ==>
                        reply.text == Sanitise(c, c.clarify(r.missing)) && reply.reason == None))
  {
    hide Sanitise, Strip;
  }

  /** The model's own words, when they are used: sanitised, with the outside-hours text behind them if both fit; and when
      they cannot be used although the answer is confident, the text that says so. */
  lemma ComposeQuotes(c: Config, r: Analysis, hasContext: bool, suffix: string)
    requires r.flags == [] && !Settled(r) && r.confidence >= c.escalate && r.confidence >= c.reply && !r.requiresHuman
    ensures var reply, own := Compose(c, r, hasContext, suffix, false), Sanitise(c, r.proposed);
            && (LacksGrounding(r, hasContext) || own == "" ==>
                  reply.text == Sanitise(c, c.noKnowledge) && reply.reason == Some(NoKnowledge))
            && (!LacksGrounding(r, hasContext) && own != "" ==>
                  && own <= reply.text && reply.sources == r.sources && reply.intent == r.intent
                  && reply.text == (if |own| + |suffix| <= c.maxChars then own + suffix else own))
  {
    hide Sanitise, Strip;
    assert Sanitise(c, r.proposed) + "" == Sanitise(c, r.proposed);
  }

  // ------------------------------------------------------------------ the whole pipeline

  /** What the rules say about a message before the model is asked. */
  datatype Rules = OptOutWord | OptInWord | HandOverWord | Injection | NoRule

  function Ruled(intent: Intent, confidence: real, human: bool, flags: seq<Flag>): Analysis {
    Analysis(intent, confidence, [], "", human, flags, [])
  }

  /** The analysis of a message: rules first, then the screen for injections, then the model. */
  function Analyse(c: Config, rules: Rules, raw: Analysis, known: seq<string>): Analysis {
    match rules
    case OptOutWord => Ruled(OptOut, 1.0, false, [])
    case OptInWord => Ruled(OptIn, 1.0, false, [])
    case HandOverWord => Ruled(HumanAgentRequest, 1.0, true, [])
    case Injection => Ruled(Unknown, 0.0, true, [PromptInjection])
    case NoRule => PostValidate(c, Accept(raw), known)
  }

  function Answer(c: Config, rules: Rules, raw: Analysis, known: seq<string>, suffix: string, llmFailed: bool): BotReply {
    var r := if llmFailed then Ruled(Unknown, 0.0, false, []) else Analyse(c, rules, raw, known);
    Compose(c, r, known != [], suffix, llmFailed)
  }

  /** For any model output: a reply the model drafted cites only retrieved chunks; to a question that needs
      grounding it cites at least one; it does not escalate and answers no consent or consequential intent; and
      when the two thresholds differ it is sent only with retrieved context or to greet. */
  lemma DraftedRepliesAreGrounded(c: Config, rules: Rules, raw: Analysis, known: seq<string>, suffix: string, llmFailed: bool)
    requires ConfigOk(c)
    requires !Answer(c, rules, raw, known, suffix, llmFailed).deterministic
    ensures var reply := Answer(c, rules, raw, known, suffix, llmFailed);
            && rules == NoRule && !llmFailed && !reply.escalate
            && AllKnown(reply.sources, known)
            && (reply.intent in GROUNDING_REQUIRED ==> reply.sources != [] && known != [])
            && reply.intent !in {OptOut, OptIn, HumanAgentRequest, Complaint, RefundRequest, Cancellation}
            && reply.confidence >= c.reply
            && (c.escalate < c.reply ==> known != [] || reply.intent == Greeting)
  {
    hide Sanitise, Strip, KeepKnown;
    PostValidationOnlyLowers(c, Accept(raw), known);
  }

  // ------------------------------------------------------------------ what the model's output leads to

  /** The intent that is acted on: a disabled one counts as unknown. */
  function Effective(c: Config, raw: Analysis): Intent { if raw.intent in c.enabled then raw.intent else Unknown }

  predicate SomeKnown(sources: seq<string>, known: seq<string>) { exists k | 0 <= k < |sources| :: sources[k] in known }

  /** The claimed confidence is capped: the intent is disabled, there is no context where some is needed, or every
      claimed source is invented. */
  predicate Capped(c: Config, raw: Analysis, known: seq<string>) {
    raw.intent !in c.enabled || (known == [] && !Exempt(raw.intent)) || (raw.sources != [] && !SomeKnown(raw.sources, known))
  }

  /** The claimed confidence, clamped to the unit interval. */
  function Claimed(raw: Analysis): real { Min(1.0, Max(0.0, raw.confidence)) }

  /** The claim reaches the reply threshold, and no cap brings it below. */
  predicate Confident(c: Config, raw: Analysis, known: seq<string>) {
    Claimed(raw) >= c.reply && (Capped(c, raw, known) ==> c.escalate == c.reply)
  }

  /** A fixed text answers the intent whatever the confidence. */
  predicate SettledBy(c: Config, raw: Analysis) {
    Effective(c, raw) in {OptOut, OptIn, HumanAgentRequest, Complaint, RefundRequest, Cancellation} ||
    (Effective(c, raw) == Greeting && Strip(raw.proposed) == "")
  }

  /** A grounded answer is required and no claimed source was retrieved. */
  predicate Unsupported(c: Config, raw: Analysis, known: seq<string>) {
    Effective(c, raw) in GROUNDING_REQUIRED && !SomeKnown(raw.sources, known)
  }

  /** What post-validation makes of the raw output, in terms of the raw output. */
  lemma Validated(c: Config, raw: Analysis, known: seq<string>)
    requires ConfigOk(c)
    ensures var v := PostValidate(c, Accept(raw), known);
            && v.intent == Effective(c, raw) && v.flags == raw.flags && v.proposed == raw.proposed
            && v.requiresHuman == (raw.requiresHuman || raw.flags != [])
            && (v.confidence >= c.reply <==> Confident(c, raw, known))
            && (v.confidence < c.escalate <==> Claimed(raw) < c.escalate)
            && (known != [] && v.sources != [] <==> SomeKnown(raw.sources, known))
  {
    hide KeepKnown;
    KeptAreKnown(raw.sources, known);
  }

  /** For any model output, its text is sent exactly when: no rule fired and the model answered; it raised no flag
      and asked for no person; no fixed text settles the intent; the claimed confidence reaches the reply threshold
      and is not capped below it; a grounding-required answer claims a source that was retrieved; and something
      visible survives sanitising. */
  lemma DraftedExactlyWhen(c: Config, rules: Rules, raw: Analysis, known: seq<string>, suffix: string, llmFailed: bool)
    requires ConfigOk(c)
    ensures !Answer(c, rules, raw, known, suffix, llmFailed).deterministic <==>
            && rules == NoRule && !llmFailed && raw.flags == [] && !raw.requiresHuman
            && !SettledBy(c, raw) && Confident(c, raw, known) && !Unsupported(c, raw, known)
            && Strip(c.scrub(raw.proposed)) != ""
  {
    hide Sanitise, Strip, PostValidate, Compose, Confident, SomeKnown;
    Validated(c, raw, known);
    SanitisedFits(c, raw.proposed);
    var r := if llmFailed then Ruled(Unknown, 0.0, false, []) else Analyse(c, rules, raw, known);
    ComposeDrafts(c, r, known != [], suffix, llmFailed);
  }

  /** For any model output, the reply hands over to a person exactly when: the model failed; the rules found a
      request for a person or an injection; or no rule fired and the model raised a flag, named an intent for a
      person, asked for one or claimed less than the lower threshold without a fixed text settling it, or was
      confident without support or usable text. The cap alone never hands over: it caps at the threshold, which
      is not below it. */
  lemma EscalatesExactlyWhen(c: Config, rules: Rules, raw: Analysis, known: seq<string>, suffix: string, llmFailed: bool)
    requires ConfigOk(c)
    ensures Answer(c, rules, raw, known, suffix, llmFailed).escalate <==>
            || llmFailed || rules == HandOverWord || rules == Injection
            || (rules == NoRule &&
                (|| raw.flags != []
                 || Effective(c, raw) in {HumanAgentRequest, Complaint, RefundRequest, Cancellation}
                 || (!SettledBy(c, raw) && (Claimed(raw) < c.escalate || raw.requiresHuman))
                 || (!SettledBy(c, raw) && Confident(c, raw, known) &&
                     (Unsupported(c, raw, known) || Strip(c.scrub(raw.proposed)) == ""))))
  {
    hide Sanitise, Strip, PostValidate, Compose, Confident, SomeKnown;
    Validated(c, raw, known);
    SanitisedFits(c, raw.proposed);
    var r := if llmFailed then Ruled(Unknown, 0.0, false, []) else Analyse(c, rules, raw, known);
    ComposeEscalates(c, r, known != [], suffix, llmFailed);
  }

  /** For any model output, the bot is paused exactly when the rules found a request for a person, or none fired
      and the model, without a flag, names an enabled request for a person or a complaint. */
  lemma PausesExactlyWhen(c: Config, rules: Rules, raw: Analysis, known: seq<string>, suffix: string, llmFailed: bool)
    requires ConfigOk(c)
    ensures Answer(c, rules, raw, known, suffix, llmFailed).pauseBot <==>
            !llmFailed &&
            (rules == HandOverWord ||
             (rules == NoRule && raw.flags == [] &&
              (raw.intent == HumanAgentRequest || (raw.intent == Complaint && Complaint in c.enabled))))
  {
    hide Sanitise, Strip, PostValidate, Compose, Confident, SomeKnown;
    Validated(c, raw, known);
    var r := if llmFailed then Ruled(Unknown, 0.0, false, []) else Analyse(c, rules, raw, known);
    ComposePauses(c, r, known != [], suffix, llmFailed);
  }

  /** What somebody is told: a person in danger gets the emergency text if there is one, an injection and every other
      restricted topic get the text for what is not known, whatever the model proposed; keywords get their fixed texts; and
      a model that names an enabled fixed intent gets that intent's text. */
  lemma AnswerSays(c: Config, rules: Rules, raw: Analysis, known: seq<string>, suffix: string, llmFailed: bool)
    requires ConfigOk(c)
    ensures var reply := Answer(c, rules, raw, known, suffix, llmFailed);
            && (llmFailed ==> reply.text == Sanitise(c, c.unavailable) && reply.reason == Some(LlmUnavailable))
            && (!llmFailed ==>
                  && (rules == OptOutWord ==> reply.text == Sanitise(c, c.optOutText))
                  && (rules == OptInWord ==> reply.text == Sanitise(c, c.optInText))
                  && (rules == HandOverWord ==> reply.text == Sanitise(c, c.handOver) && reply.reason == Some(CustomerRequest))
                  && (rules == Injection ==> reply.text == Sanitise(c, c.noKnowledge) && reply.reason == Some(RestrictedReason)))
            && (!llmFailed && rules == NoRule && raw.flags != [] ==>
                  && (raw.flags[0] == SelfHarm ==>
                        && reply.reason == Some(SafetyConcern)
                        && reply.text == Sanitise(c, if c.emergency.Some? && c.emergency.value != "" then c.emergency.value
                                                     else c.noKnowledge))
                  && (raw.flags[0] == LegalAdvice ==> reply.text == Sanitise(c, c.sorry) && reply.reason == Some(LegalThreat))
                  && (raw.flags[0] == Abuse ==> reply.text == Sanitise(c, c.sorry) && reply.reason == Some(ComplaintReason))
                  && (raw.flags[0] == PromptInjection ==> reply.text == Sanitise(c, c.noKnowledge)))
            && (!llmFailed && rules == NoRule && raw.flags == [] && raw.intent in c.enabled ==>
                  && (raw.intent == OptOut ==> reply.text == Sanitise(c, c.optOutText))
                  && (raw.intent == OptIn ==> reply.text == Sanitise(c, c.optInText))
                  && (raw.intent == HumanAgentRequest ==> reply.text == Sanitise(c, c.handOver))
                  && (raw.intent in {Complaint, RefundRequest, Cancellation} ==> reply.text == Sanitise(c, c.acknowledge(raw.intent)))
                  && (raw.intent == Greeting && Strip(raw.proposed) == "" ==> reply.text == Sanitise(c, c.greeting + suffix)))
  {
    hide Sanitise, Strip, PostValidate, Compose, Confident, SomeKnown;
    Validated(c, raw, known);
    var r := if llmFailed then Ruled(Unknown, 0.0, false, []) else Analyse(c, rules, raw, known);
    ComposeSays(c, r, known != [], suffix, llmFailed);
  }

  /** The model answered without any context, and did not merely greet. */
  predicate Ungrounded(c: Config, raw: Analysis) {
    var reply := Answer(c, NoRule, raw, [], "", false);
    !reply.deterministic && reply.intent != Greeting
  }

  /** Some model output gets an ungrounded answer sent exactly when the two thresholds are equal: the cap is the
      escalation threshold itself, and the hand-over test is strict. */
  lemma UngroundedExactlyWhen(c: Config, visible: string)
    requires ConfigOk(c) && Strip(c.scrub(visible)) != ""
    ensures (exists raw :: Ungrounded(c, raw)) <==> c.escalate == c.reply
  {
    hide Sanitise, Strip, KeepKnown;
    if c.escalate == c.reply {
      var raw := Analysis(Unknown, 1.0, [], visible, false, [], []);
      SanitisedFits(c, visible);
      NothingKept([]);
      assert Ungrounded(c, raw);
    } else {
      forall raw ensures !Ungrounded(c, raw) {
        if Ungrounded(c, raw) { DraftedRepliesAreGrounded(c, NoRule, raw, [], "", false); }
      }
    }
  }

  /** A message with no keyword in it still ends as a consent intent exactly when the model says so and the intent
      is enabled: the consent decision is then the model's. */
  lemma ConsentIsDelegatedExactlyWhen(c: Config, raw: Analysis, known: seq<string>)
    requires ConfigOk(c)
    ensures Analyse(c, NoRule, raw, known).intent == OptIn <==> raw.intent == OptIn && OptIn in c.enabled
    ensures Analyse(c, NoRule, raw, known).intent == OptOut <==> raw.intent == OptOut
    ensures raw.intent == OptOut && raw.flags == [] ==>
              Answer(c, NoRule, raw, known, "", false) == Fixed(c, c.optOutText, OptOut, 1.0)
  {
    hide Sanitise, Strip;
  }
}
