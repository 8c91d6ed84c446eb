/** The pre-send compliance gate for one business-initiated message. */
module Eligibility {
  import opened Prelude
  import opened Consent
  import opened QuietHours

  datatype Category = MarketingCategory | UtilityCategory | AuthenticationCategory

  datatype Template = Template(approved: bool, category: Category, requiresOptIn: bool, language: string)

  /** The parts of the business and bot configuration the gate reads. */
  datatype Settings = Settings(campaignsEnabled: bool, languages: set<string>, offset: int, quiet: Window)

  datatype SendContext = SendContext(
    status: ConsentStatus, purpose: Option<Purpose>, suppressed: bool,
    template: Option<Template>, now: int, alreadySent: bool)

  datatype Code =
    | Ok | SuppressedCode | OptedOutCode | CampaignsDisabled | Duplicate | NoTemplate
    | TemplateNotApproved | NoOptIn | WrongConsentPurpose | UnsupportedLanguage | InQuietHours

  function Evaluate(c: SendContext, s: Settings): Code {
    if c.suppressed then SuppressedCode
    else if c.status == OptedOut || c.status == ConsentStatus.Suppressed then OptedOutCode
    else if !s.campaignsEnabled then CampaignsDisabled
    else if c.alreadySent then Duplicate
    else if c.template.None? then NoTemplate
    else
      var t := c.template.value;
      if !t.approved then TemplateNotApproved
      else if t.category == MarketingCategory && c.status != OptedIn then NoOptIn
      else if t.category == MarketingCategory && c.purpose.Some? && c.purpose.value != Marketing then WrongConsentPurpose
      else if t.category != MarketingCategory && t.requiresOptIn && c.status != OptedIn then NoOptIn
      else if t.language !in s.languages then UnsupportedLanguage
      else if IsWithinQuietHours(c.now, s.offset, s.quiet) then InQuietHours
      else Ok
  }

  /** The newest record of a purpose for a contact: greatest time, and among equals the last appended. */
  function LatestForPurpose(log: seq<Record>, id: nat, purpose: Purpose): Option<Record> {
    if log == [] then None
    else
      var before, r := LatestForPurpose(log[..|log|-1], id, purpose), log[|log|-1];
      if r.contact == id && r.purpose == purpose && (before.None? || before.value.occurredAt <= r.occurredAt)
      then Some(r) else before
  }

  /** The gate as the consent service calls it for a stored contact. */
  function CheckEligibility(b: Book, id: nat, template: Option<Template>, now: int, alreadySent: bool, s: Settings): Code
    requires id < |b.contacts|
  {
    var latest := if template.None? then None else LatestForPurpose(b.log, id, Marketing);
    var purpose := if latest.Some? && latest.value.status == OptedIn then Some(latest.value.purpose) else None;
    var c := b.contacts[id];
    Evaluate(SendContext(c.consent, purpose, c.hash in b.suppressed, template, now, alreadySent), s)
  }

  lemma {:induction false} LatestHasThePurpose(log: seq<Record>, id: nat, purpose: Purpose)
    ensures var r := LatestForPurpose(log, id, purpose);
            r.Some? ==>
              && r.value in log && r.value.contact == id && r.value.purpose == purpose
              && forall q | q in log && q.contact == id && q.purpose == purpose :: q.occurredAt <= r.value.occurredAt
    ensures LatestForPurpose(log, id, purpose).None? ==>
              forall q | q in log :: q.contact != id || q.purpose != purpose
    decreases |log|
  {
    if log != [] {
      LatestHasThePurpose(log[..|log|-1], id, purpose);
      assert log == log[..|log|-1] + [log[|log|-1]];
    }
  }

  /** A template may go to a contact now: the number is not suppressed, nobody opted out, campaigns are on, nothing was
      sent before, the template is approved and in a language of the business, marketing and every template that asks
      for it has the contact's opt-in, and it is not quiet. */
  predicate MaySend(b: Book, id: nat, template: Option<Template>, now: int, alreadySent: bool, s: Settings)
    requires id < |b.contacts|
  {
    && b.contacts[id].hash !in b.suppressed
    && b.contacts[id].consent !in {OptedOut, ConsentStatus.Suppressed}
    && s.campaignsEnabled && !alreadySent
    && template.Some? && template.value.approved && template.value.language in s.languages
    && (template.value.category == MarketingCategory || template.value.requiresOptIn ==> b.contacts[id].consent == OptedIn)
    && !IsWithinQuietHours(now, s.offset, s.quiet)
  }

  /** What an allowed send guarantees, and that nothing else is needed.  The purpose recorded with the
      opt-in plays no part: only records for marketing are looked up, so the purpose check cannot fail. */
  lemma AllowedExactlyWhen(b: Book, id: nat, template: Option<Template>, now: int, alreadySent: bool, s: Settings)
    requires id < |b.contacts|
    ensures CheckEligibility(b, id, template, now, alreadySent, s) != WrongConsentPurpose
    ensures CheckEligibility(b, id, template, now, alreadySent, s) == Ok <==> MaySend(b, id, template, now, alreadySent, s)
  {
    LatestHasThePurpose(b.log, id, Marketing);
  }

  /** The reason given for a refusal is the first of the checks that fails. */
  lemma RefusedForTheFirstReason(b: Book, id: nat, template: Option<Template>, now: int, alreadySent: bool, s: Settings)
    requires id < |b.contacts|
    ensures var code, c := CheckEligibility(b, id, template, now, alreadySent, s), b.contacts[id];
            var stopped := c.hash in b.suppressed;
            var out := c.consent == OptedOut || c.consent == ConsentStatus.Suppressed;
            && (code == SuppressedCode <==> stopped)
            && (code == OptedOutCode <==> !stopped && out)
            && (code == CampaignsDisabled <==> !stopped && !out && !s.campaignsEnabled)
            && (code == Duplicate <==> !stopped && !out && s.campaignsEnabled && alreadySent)
            && (code == NoTemplate <==> !stopped && !out && s.campaignsEnabled && !alreadySent && template.None?)
            && (!stopped && !out && s.campaignsEnabled && !alreadySent && template.Some? ==>
                  var t := template.value;
                  var lacking := (t.category == MarketingCategory || t.requiresOptIn) && c.consent != OptedIn;
                  && (code == TemplateNotApproved <==> !t.approved)
                  && (code == NoOptIn <==> t.approved && lacking)
                  && (code == UnsupportedLanguage <==> t.approved && !lacking && t.language !in s.languages)
                  && (code == InQuietHours <==> t.approved && !lacking && t.language in s.languages &&
                                                IsWithinQuietHours(now, s.offset, s.quiet)))
  {
    hide IsWithinQuietHours;
    LatestHasThePurpose(b.log, id, Marketing);
  }

  /** An opt-in recorded for a utility purpose only makes a marketing template sendable. */
  lemma UtilityOptInAdmitsMarketing(t: Template, s: Settings, now: int)
    requires t.approved && t.category == MarketingCategory && t.language in s.languages
    requires s.campaignsEnabled && !IsWithinQuietHours(now, s.offset, s.quiet)
    ensures var b := OptInBook(Book([Contact("h", Unknown, true)], {}, [], []), 0, Utility, 0);
            (forall r | r in b.log :: r.purpose == Utility)
            && CheckEligibility(b, 0, Some(t), now, false, s) == Ok
  {
    var b := OptInBook(Book([Contact("h", Unknown, true)], {}, [], []), 0, Utility, 0);
    AllowedExactlyWhen(b, 0, Some(t), now, false, s);
  }
}
