# Verification of the WhatsApp bot backend

A Dafny model of the parts of the backend whose logic is hard to see from any single function, and proofs about
them. Functions and values specify; the classes and loops of the original are classes and loops here, proved equal
to those specifications; the theorems are about the specifications. `dafny verify dfyconfig.toml` checks everything.

| module | models |
|---|---|
| `Text`, `Prelude` | whitespace, strip, split, join and search on strings |
| `BraceScan`, `JsonText` | the brace scan that finds a JSON object in a model response, against a grammar and against RFC 8259 sections 2 to 7 |
| `PromptText`, `PromptRoundTrip`, `FlatText` | printing the composed prompt and parsing it back |
| `TextSplit`, `SplitTheorems`, `Packing`, `PackingOptimal`, `SentencePacking`, `KnowledgePrompt` | splitting and packing knowledge files, and what the prompt parser makes of packed chunks |
| `Ranking`, `Retrieval`, `RetrievalTheorems`, `TermWeights` | the BM25 index and the search |
| `Keywords`, `QuietHours`, `Eligibility` | compliance rules |
| `Consent` | opt-in, opt-out, suppression and the consent log |
| `CampaignTables`, `Staging`, `StagedRows`, `Dispatch`, `Batches`, `FailureBrake`, `Campaign`, `Outcomes`, `CampaignServices` | staging and batched dispatch over a campaign's whole life, other sessions included |
| `Delivery` | the delivery-status fold and its recipient mirror |
| `Breaker` | the circuit breaker and the retry loop |
| `Ledger` | the idempotency ledger, racing and sequential |
| `Reply` | post-validation, sanitising and composition for arbitrary model output |
| `Takeover`, `TakeoverTheorems`, `TakeoverServices` | inbound messages, escalation and human takeover |

What the environment decides is a parameter: the JSON parser, phone normalisation, the logarithm and the rounding of
scores are functions; outcomes of sends, clock readings, jitter and other sessions' events are arbitrary sequences.

## Where the code and its documentation differ

The model follows the code. These differences are theorems:

* Consent is said never to be delegated to a model (app/services/intent_service.py:187), and OPT_IN is listed as
  decided by application code only (app/domain/enums.py:119-128). An OPT_IN from the model lifts a suppression
  (`ModelLiftsSuppressionExactlyWhen`), and an OPT_OUT from it sends the opt-out text without an opt-out
  (`ConsentIsDelegatedExactlyWhen`).
* An opt-out is said to be processed before anything else, always (app/services/conversation_service.py:245). If
  sending its confirmation fails, the transaction is rolled back and the opt-out with it
  (`StopWordIsKeptExactlyWhen`).
* The suppression list is said to have no delete method (app/repositories/contacts.py:133-138); it has one, and
  opting in uses it (`OptInUndoesOptOut`).
* The purpose check of the send gate cannot fail, since only marketing records are looked up
  (`AllowedExactlyWhen`, `UtilityOptInAdmitsMarketing`).
* The failure-rate brake is not consulted after a number that does not decrypt, so ten failures out of ten can go
  unnoticed (`StoppedAtTheLimitExactlyWhen`, `TenFailuresWithoutAStop`), and a waiting recipient whose contact is gone
  keeps the batch loop from ever completing (`RunCompletesExactlyWhen`).
* A number that bounces is said to be tried no more (app/services/conversation_service.py:417); a bounce that arrives
  before the run that sent the message is committed is dropped (`FailureSuppressesExactlyWhen`, `EarlyBounceIsLost`).
* A run aborted by the open breaker forgets the messages that were accepted, so a retry can send them again
  (`RetryIsSafeExactlyWhen`, `RollbackExposesExactlyWhen`).
* A status that arrives after FAILED overwrites it, and the recipient mirror has no rank guard
  (`TerminalOnlyWhileLast`, `MirrorAfterARun`).
* Short chunks are always dropped; the guard meant to keep a lone short chunk never applies (`ShortChunksAreDropped`,
  `FileTextSurvivesExactlyWhen`).
* The deterministic provider reads back only the first paragraph of a chunk packed from several
  (`PromptRoundTrip.NothingIsLostExactlyWhen`, `PackedChunkIsReadWhole`).
* An answer without retrieval support is capped at the escalation threshold, which is not below it: with equal
  thresholds it is still sent (`UngroundedExactlyWhen`).
* Acknowledging a resolved ticket reopens it, and resolving can revive an expired conversation
  (`TicketsStayUniqueExactlyWhen`, `LiveStaysUniqueExactlyWhen`).

## Model

| member | source | states |
|---|---|---|
| `BraceScan.ScanAgreesWithGrammar` | app/integrations/llm_client.py:73-103 | Started at an opening brace, the string-aware scan returns to depth zero at a position exactly when the text up to it is one balanced brace group of an independent grammar of braces, strings and escapes. |
| `BraceScan.BalancedIsPrefixFree` | app/integrations/llm_client.py:73-103 | No proper prefix of a balanced group is balanced, so the slice the scan finds at a position is the only one and the shortest. |
| `BraceScan.ScanForObject` | app/integrations/llm_client.py:72-103 | The nested loops end; the result is the object of the leftmost balanced slice that parses to an object, and there is none exactly when no balanced slice does. |
| `BraceScan.ExtractJsonObject` | app/integrations/llm_client.py:47-103 | The fenced part, then the whole text, then the scan: which of them answers, for every parser. |
| `JsonText.ObjectIsBalanced` | app/integrations/llm_client.py:73-103 | Whatever its strings, escapes and whitespace, an RFC 8259 object as written is one balanced group (induction over the JSON tree). |
| `JsonText.ScanStopsAtObjectEnd` | app/integrations/llm_client.py:73-103 | After prose without an opening brace, the scan over prose + object + anything closes exactly on the object's last character. |
| `JsonText.PrintedObjectIsExtracted` | app/integrations/llm_client.py:73-103 | Prose around a printed object: the extraction's only possible answer is that object. |
| `Text.TidyKeeps` | app/integrations/llm_client.py:463 | Each line that is not blank is kept where it stands, without the whitespace around it, and each blank one is dropped. |
| `Text.TidyAreSlices` | app/integrations/llm_client.py:463 | Every kept line is a contiguous stretch of one of the lines. |
| `PromptText.AsContextBlock` | app/domain/schemas.py:164-174 | The printing loop gives the block of the leading hits that fit the budget, joined by empty lines: the text the round-trip theorems are about. |
| `PromptText.BlockLength` | app/domain/schemas.py:164-174 | As many leading hits as fit the budget are printed and the first that does not fit ends the block; the budget covers the entries only, so the block is longer than it by the blank lines between them. |
| `PromptText.ExtractContextChunks` | app/integrations/llm_client.py:441-466 | The parsing loop gives the chunks of the sections between the two headings: the result the round-trip theorems are about. |
| `PromptRoundTrip.MessageRoundTrip` | app/integrations/llm_client.py:433-438 | From a composed prompt the extracted customer message is the stripped original exactly when the original lacks the marker, whatever stands before it. |
| `PromptRoundTrip.ChunksAreRecovered` | app/integrations/llm_client.py:441-466 | Parsing a composed prompt returns, for each printed hit in order, its id, stripped title and first paragraph on one line, then whatever its later paragraphs parse to; nothing comes from the placeholder, the history or the customer's message, even if they contain the markers. |
| `PromptRoundTrip.NothingIsLostExactlyWhen` | app/integrations/llm_client.py:441-466 | The parser returns exactly the printed hits with their whole bodies if and only if no printed body has an empty line. |
| `PromptRoundTrip.HeaderIsReadExactlyWhen` | app/integrations/llm_client.py:430-462 | A printed header line is read back as its id and title exactly when the id is not empty and has no whitespace and no closing bracket. |
| `PromptRoundTrip.FlatKeepsVisible` | app/integrations/llm_client.py:463 | Joining the stripped lines of a body with spaces keeps every visible character in order; with FlatText.FlatKeepsWords and FlatText.FlatOfLines this says what a parsed body is. |
| `FlatText.FlatKeepsWords` | app/integrations/llm_client.py:463 | The parsed body has exactly the words of the text it was made from, in order: lines are joined, words are not. |
| `FlatText.FlatOfLines` | app/integrations/llm_client.py:463 | Stripped lines come back joined by single spaces, each with every character it had, blanks inside included. |
| `FlatText.LinesAreCut` | app/integrations/llm_client.py:457 | The lines of a section are the pieces between its line breaks: none has a break inside, and with the breaks they make up the text. |
| `FlatText.SectionIsReadBack` | app/integrations/llm_client.py:456-466 | A header line with stripped lines under it is read as one chunk: the id, the stripped title, and those lines joined by spaces. |
| `FlatText.HeaderAloneGivesNothing` | app/integrations/llm_client.py:463-464 | A header without a body gives no chunk. |
| `FlatText.WithoutHeaderNothing` | app/integrations/llm_client.py:460-462 | A section whose first line does not start with a bracket gives no chunk. |
| `TextSplit.ParagraphsKeepVisible` | app/services/knowledge_service.py:74 | Splitting into paragraphs keeps the visible characters in order, and each paragraph is stripped and not empty. |
| `TextSplit.SentencesKeepVisible` | app/services/knowledge_service.py:84 | The sentences of a paragraph keep its visible characters in order, and each starts and ends visibly. |
| `SplitTheorems.SentencesExactly` | app/services/knowledge_service.py:84 | The sentences of a paragraph are the pieces, and the only ones, that whitespace after a sentence mark cuts it into: every piece but the last ends in a mark, none has a mark before whitespace inside, and with the cut whitespace they make up the paragraph. |
| `SplitTheorems.ParagraphsExactly` | app/services/knowledge_service.py:74 | The paragraphs of a text are the pieces, and the only ones, that two line feeds with nothing visible between them cut it into: each is a stretch from a visible character to a visible one with no such break inside. |
| `Packing.PackOversized` | app/services/knowledge_service.py:82-92 | The sentence loop gives the sentences of an oversized paragraph packed in order, each cut to the limit: the chunks the length and text theorems are about. |
| `Packing.ChunkText` | app/services/knowledge_service.py:72-101 | The packing loop and the last filter give the filtered chunks the length, text and optimality theorems are about. |
| `Packing.EveryChunkFits` | app/services/knowledge_service.py:72-100 | Every chunk is within the limit, for any text and limit. |
| `Packing.ParagraphsKeepText` | app/services/knowledge_service.py:72-100 | The visible text of the chunks is that of the paragraphs, in order, with each over-long sentence of an oversized paragraph cut to the limit. |
| `Packing.LosslessExactlyWhen` | app/services/knowledge_service.py:72-100 | Before the last filter the chunks hold all the visible text exactly when every sentence of every oversized paragraph fits the limit. |
| `Packing.ShortChunksAreDropped` | app/services/knowledge_service.py:101 | The last filter keeps everything exactly when every chunk has 40 characters, and drops everything exactly when none has: its second alternative never saves a chunk. |
| `Packing.FileTextSurvivesExactlyWhen` | app/services/knowledge_service.py:72-101 | The chunks that are returned hold all the visible text of the file, in order, exactly when every sentence of every oversized paragraph fits the limit and every packed chunk has 40 characters. |
| `Packing.KeptEach` | app/services/knowledge_service.py:101 | The last filter keeps each chunk of 40 characters where it stands and drops each shorter one. |
| `Packing.CutIsBeginning` | app/services/knowledge_service.py:88 | Cutting a sentence keeps its beginning, as much as the limit allows. |
| `PackingOptimal.GreedyIsPacked` | app/services/knowledge_service.py:92-100 | The chunks are the joins of an order-preserving grouping of the paragraphs within the limit. |
| `PackingOptimal.OpenGroups` | app/services/knowledge_service.py:92-97 | A shorter running buffer never costs chunks and an open one costs at most one: the exchange argument. |
| `PackingOptimal.PackingIsOptimal` | app/services/knowledge_service.py:72-100 | When no paragraph is oversized, no order-preserving grouping within the limit has fewer chunks. |
| `SentencePacking.SentencesArePackedTightly` | app/services/knowledge_service.py:82-92 | The chunks of an oversized paragraph are its sentences in order, in groups joined by spaces that fit the limit; only a sentence longer than the limit is cut, and no group has room for the sentence after it. |
| `SentencePacking.PackedSentencesAre` | app/services/knowledge_service.py:82-92 | There is only one such packing, and the chunks are its groups. |
| `KnowledgePrompt.ParagraphsHaveNoBlankLine` | app/services/knowledge_service.py:74 | No paragraph produced by the split has an empty line inside. |
| `KnowledgePrompt.PiecesArePacked` | app/services/knowledge_service.py:76-100 | Every chunk is a join of whole paragraphs or a fragment of an oversized one. |
| `KnowledgePrompt.PackedChunkIsReadWhole` | app/services/knowledge_service.py:72-101 | Any chunk of any file, printed as a hit, comes back from the prompt with its whole text exactly when it is a single paragraph or a fragment of an oversized one. |
| `KnowledgePrompt.PiecesAreTight` | app/services/knowledge_service.py:92-97 | Neighbouring chunks made of whole paragraphs never fit one chunk: the first could not have taken the paragraph after it, oversized paragraphs in the file or not. |
| `Retrieval.KnowledgeIndex.Build` | app/services/knowledge_service.py:307-315 | The index's term counts, document frequencies and average length are the naive ones. |
| `Retrieval.Counter` | app/services/knowledge_service.py:310 | Counting tokens gives each token's number of occurrences. |
| `Retrieval.ScorePick` | app/services/knowledge_service.py:334-348 | A document's score is the sum over the query's terms whatever order the set is walked in. |
| `Retrieval.KnowledgeIndex.AddTerm` | app/services/knowledge_service.py:339-347 | The inner loop adds one term's contribution to every document. |
| `Retrieval.KnowledgeIndex.Bm25` | app/services/knowledge_service.py:329-348 | The scores computed from the index are those of the naive definition, unknown terms included. |
| `Retrieval.ScoreSign` | app/services/knowledge_service.py:329-348 | Scores are never negative, and positive exactly for documents that contain a query term. |
| `Retrieval.KnowledgeIndex.Search` | app/services/knowledge_service.py:361-410 | The search returns the first top_k of the ranked candidates by normalised score: the hits the ranking theorems are about. |
| `RetrievalTheorems.NormalisedRange` | app/services/knowledge_service.py:375-376 | Normalised scores lie between 0 and 1 and are positive exactly for documents sharing a term. |
| `RetrievalTheorems.PeakNormalisedToOne` | app/services/knowledge_service.py:374-376 | Some chunk is normalised to 1 exactly when some chunk shares a term with the query. |
| `RetrievalTheorems.CandidatesAre` | app/services/knowledge_service.py:385-400 | The hits before sorting are exactly the chunks at or above the threshold. |
| `RetrievalTheorems.HitsAreTheBest` | app/services/knowledge_service.py:402-406 | The hits are ranked by falling score and, for equal scores, by chunk id; there are min(top_k, candidates) of them, and no candidate left out scores higher than a hit. |
| `RetrievalTheorems.HitsShareATerm` | app/services/knowledge_service.py:361-410 | With a threshold in (0, 1] and room for a hit, there is a hit exactly when some chunk shares a term with the query, and every hit shares one. |
| `RetrievalTheorems.ChunkOrderDoesNotMatter` | app/services/knowledge_service.py:402-406 | With distinct chunk ids, any rearrangement of the chunks gives the same hits in the same order. |
| `TermWeights.RarerWeighsMore` | app/services/knowledge_service.py:338-347 | With a strictly rising logarithm a term that fewer chunks have adds more to a chunk's score than one that more chunks have, occurring equally often in it. |
| `TermWeights.MoreOftenWeighsMore` | app/services/knowledge_service.py:343-347 | Of two chunks of the same length the one with more occurrences of the term gets strictly more for it. |
| `TermWeights.LongerWeighsLess` | app/services/knowledge_service.py:342-347 | Of two chunks with equally many occurrences the longer one gets strictly less. |
| `TermWeights.WeightFormula` | app/services/knowledge_service.py:338-347 | In a chunk r times as long as the average, tf occurrences weigh log((N + 1) / (df + 0.5)) * 2.5 tf / (tf + 0.375 + 1.125 r): this fixes both constants. |
| `TermWeights.WeightAtAverageLength` | app/services/knowledge_service.py:338-347 | At average length that is log((N + 1) / (df + 0.5)) * 2.5 tf / (tf + 1.5). |
| `TermWeights.RarerTermScoresHigher` | app/services/knowledge_service.py:334-376 | Of two chunks of the same length with one query term each, equally often, the one with the rarer term scores higher and is normalised higher. |
| `TermWeights.NormalisedIsTheShare` | app/services/knowledge_service.py:375-376 | A normalised score is the score as a share of the best one. |
| `Ranking.RankIsSorted` | app/services/knowledge_service.py:403 | The sort returns a ranked permutation. |
| `Ranking.RankingIsUnique` | app/services/knowledge_service.py:402-403 | With distinct ids there is only one ranked order. |
| `Ranking.FirstDifferenceDecides` | app/services/knowledge_service.py:403 | Chunk ids are compared by their first differing character, and a beginning comes before what it begins. |
| `Keywords.MatchIsContainment` | app/domain/rules.py:58-60 | On normalised text the boundary pattern matches exactly when the keyword's words stand together, in order, in the message. |
| `Keywords.CommandFiresExactlyWhen` | app/domain/rules.py:45-73 | Opt-out and opt-in return the first keyword that is the whole message or a contiguous part of a message of at most four words, and nothing exactly when there is none. |
| `Keywords.HandoverFiresExactlyWhen` | app/domain/rules.py:76-91 | A handover keyword is found exactly when its words stand together anywhere in the message. |
| `Keywords.FiringIsContainment` | app/domain/rules.py:54-61 | Every keyword that fires as a command is a contained phrase too. |
| `Keywords.ClassifyExactlyWhen` | app/services/intent_service.py:72-93 | A message is ruled an opt-out exactly when a stop word fires, whatever else it contains; an opt-in only without one; a request for a person only without both. |
| `Keywords.CleanEach` | app/domain/rules.py:36-44 | Cleaning goes character by character and leaves none out. |
| `Keywords.KeywordItselfFires` | app/domain/rules.py:54-55 | A message that cleaning does not change and that is a configured keyword with a word in it fires it. |
| `QuietHours.QuietIsARotation` | app/domain/rules.py:109-124 | Quiet hours, wrapped over midnight or not, are one interval of fixed length on the clock face. |
| `QuietHours.EarliestAllowed` | app/domain/rules.py:109-139 | The returned moment is outside quiet hours, not before the input and within a day, and every moment in between is inside. |
| `QuietHours.PostponingOnceIsEnough` | app/domain/rules.py:127-139 | Postponing the returned moment changes nothing. |
| `QuietHours.ClockReadsLocalTime` | app/domain/rules.py:109-124 | The clock shows local time, ahead of the moment by the offset. |
| `Eligibility.LatestHasThePurpose` | app/repositories/consent.py:51-63 | The latest record for a purpose has that purpose and the greatest time among them; there is none exactly when no record has it. |
| `Eligibility.AllowedExactlyWhen` | app/domain/rules.py:187-276 | The gate allows a send under an explicit condition and only then; the recorded purpose plays no part, because only marketing records are looked up, so the purpose check cannot fail. |
| `Eligibility.UtilityOptInAdmitsMarketing` | app/services/consent_service.py:153-190 | A contact whose only opt-in is for utility messages passes the gate for a marketing template. |
| `Eligibility.RefusedForTheFirstReason` | app/domain/rules.py:187-276 | The code of a refusal is that of the first check that fails, each check spelled out. |
| `Consent.EventKeepsInvariant` | app/services/consent_service.py:53-145 | Every consent event keeps: unique hashes, no OPTED_OUT or SUPPRESSED status without a suppression entry, and no template call between a suppression event and the hash's next opt-in; the consent log only grows. |
| `Consent.EventsKeepInvariant` | app/services/consent_service.py:53-145 | The same over any sequence of events, operator suppressions included. |
| `Consent.OptInUndoesOptOut` | app/services/consent_service.py:53-130 | An opt-in after an opt-out restores exactly the suppression list without that hash, and both leave their record. |
| `Consent.ConsentService.OptOut` | app/services/consent_service.py:53-92 | Sets the status, appends the record and adds the suppression entry, and nothing else. |
| `Consent.ConsentService.OptIn` | app/services/consent_service.py:95-130 | Refuses a future time without writing; otherwise sets the status, appends the record and removes the entry. |
| `Consent.ConsentService.Suppress` | app/services/consent_service.py:133-145 | Suppression without an opt-out: status and entry, no record. |
| `Consent.ConsentService.CreateSuppression` | app/repositories/contacts.py:147-174 | Idempotent insertion of an entry. |
| `Consent.ConsentService.RemoveSuppression` | app/repositories/contacts.py:176-187 | Removal of an entry. |
| `Consent.CallKeepsInvariant` | app/services/campaign_service.py:286-292 | A template call keeps it if its hash is not suppressed at that moment. |
| `Consent.LastEventDecides` | app/services/consent_service.py:53-145 | After any sequence of events a contact's status is what the last event that took effect for it says. |
| `Consent.LastEventSuppresses` | app/services/consent_service.py:53-145 | After any sequence of events a hash is suppressed exactly when the last event that touched it was not an opt-in. |
| `CampaignTables.CountersAddUp` | app/repositories/campaigns.py:70-89 | The total counts every row, and the other counters add up to it exactly when no row is PENDING or SKIPPED. |
| `CampaignTables.CountersAreSizes` | app/repositories/campaigns.py:70-89 | Each counter is the number of recipients with its status, QUEUED ones counted as eligible. |
| `CampaignTables.RowsFollowTheMirror` | app/services/conversation_service.py:393-415 | Over any sequence of reports the recipient of a sent message is where the unguarded mirror is, so what is proved of the mirror holds of recipients. |
| `Staging.StagingReportAddsUp` | app/services/campaign_service.py:142-234 | Each report has eligible + rejected = rows imported, and its histogram sums to rejected. |
| `Staging.RestagingAddsNobody` | app/services/campaign_service.py:182-188 | Importing the same file again, whenever and under any template, stages nobody and changes nothing. |
| `Staging.ImportGrows` | app/services/campaign_service.py:142-234 | Staging appends contacts and rows and changes nothing that was there. |
| `Staging.ImportAlike` | app/services/campaign_service.py:183-226 | Two sessions whose views list the same contacts stage the same rows, whatever the statuses they see. |
| `StagedRows.ImportAddsRight` | app/services/campaign_service.py:142-234 | Every recipient an import adds is for a contact that was not in the campaign and for the first imported row with its hash, with that row's variables; it is ELIGIBLE exactly when the template may go to its contact by the explicit condition of the gate, and otherwise REJECTED with the gate's reason; contacts it adds have an unknown consent. |
| `StagedRows.ImportStagesEveryone` | app/services/campaign_service.py:157-226 | Afterwards every imported row with a usable number has a recipient. |
| `StagedRows.ReportCountsTheRows` | app/services/campaign_service.py:150-234 | The report's eligible number is that of the ELIGIBLE recipients added, each refusal count is that of the recipients added with that reason, and rows without a number or with a bad one are counted as such. |
| `StagedRows.MarketingNeedsOptIn` | app/services/campaign_service.py:190-203 | Every ELIGIBLE recipient a marketing import adds has a contact that was there before, has opted in and is not suppressed. |
| `Dispatch.DisturbSpares` | app/services/campaign_service.py:278-389 | What another session commits between two recipients leaves those who wait waiting, starts nobody else waiting, and adds only rows whose contacts exist. |
| `Dispatch.NextOfBatch` | app/services/campaign_service.py:278-279 | The next recipient of a fetched batch is the next one of the single pass, and the rest of the batch still begins the list of those who wait, whoever was staged meanwhile. |
| `Dispatch.PassEnds` | app/services/campaign_service.py:278-389 | A pass that is neither stopped nor aborted leaves no ELIGIBLE row. |
| `Dispatch.ReportReaches` | app/services/conversation_service.py:379-415 | A report moves its message by the rank rule and the first recipient with its id as the mirror moves, in both views, and no other message or recipient. |
| `Batches.RoundsEnd` | app/services/campaign_service.py:278-389 | With every waiting contact present the rounds of the batched loop come to an end, exactly where the single pass does. |
| `Batches.MissingContactNeverCompletes` | app/services/campaign_service.py:278-284 | A waiting recipient whose contact is gone stays ELIGIBLE, so after any number of rounds the loop has more to do. |
| `Batches.RunCompletesExactlyWhen` | app/services/campaign_service.py:278-389 | The batched loop comes to an empty fetch exactly when no waiting recipient's contact is gone and the run is neither stopped nor aborted; a run that is never stopped completes exactly when no waiting recipient's contact is gone. |
| `FailureBrake.BrakeInWholeNumbers` | app/services/campaign_service.py:360-370 | The brake fires exactly at ten or more attempts with a failed share of at least the limit. |
| `FailureBrake.StoppedAtTheLimitExactlyWhen` | app/services/campaign_service.py:294-370 | Runs that nobody stages recipients into, and that are not aborted, are always stopped exactly when their final counts are at or over the limit, if and only if no recipient with an undecryptable number waits behind nine others. |
| `FailureBrake.LateUnreadableSlipsThrough` | app/services/campaign_service.py:294-302 | For any table with such a recipient, surroundings in which the run ends with ten failures out of ten and is not stopped. |
| `FailureBrake.TenFailuresWithoutAStop` | app/services/campaign_service.py:294-302 | A concrete table of ten recipients that shows it. |
| `FailureBrake.ReadableNumbersMeetTheLimit` | app/services/campaign_service.py:360-384 | When every number decrypts, every run that is not aborted is stopped exactly when its final counts are at or over the limit, whatever other sessions do and whomever they stage. |
| `Campaign.FinalStatus` | app/services/campaign_service.py:391-399 | With every waiting contact present, a committed run ends COMPLETED exactly when the brake did not stop it and nobody was staged as ELIGIBLE between its last fetch and its end; unless it was stopped, nobody it could see is left ELIGIBLE. |
| `Campaign.OthersSeeCommittedTables` | app/workers/tasks.py:304-354 | What another session does in the middle of a run is what it would do to the committed tables alone. |
| `Campaign.DisturbKeeps` | app/services/campaign_service.py:278-389 | Consent events, imports and status reports between two recipients keep the run's view and the committed tables in order. |
| `Campaign.ProcessKeeps` | app/services/campaign_service.py:279-358 | One recipient keeps them in order, whatever its call comes to. |
| `Campaign.EvenMidRun` | app/services/campaign_service.py:279-358 | At any point inside a run the history is safe, status implies entry, and the calls of the run and of all committed runs are for different contacts. |
| `Campaign.DoKeeps` | app/services/campaign_service.py:142-411 | Every action keeps the campaign invariant. |
| `Campaign.WholeLife` | app/services/campaign_service.py:142-411 | Over any interleaving of staging, status webhooks, consent events, dry runs and live runs, with staging, webhooks and consent events also between any two recipients of a live run: no template call reaches a hash between a suppression event and its next opt-in, status implies entry, committed runs call each contact at most once, and refreshed counters add up. |
| `Campaign.FailureSuppressesExactlyWhen` | app/services/conversation_service.py:379-425 | A permanent delivery failure leaves the number suppressed exactly when it was suppressed before or the message was committed when the report was handled; a report for a message of a run in progress changes nothing. |
| `Campaign.UndeliverableNumbersAreSuppressed` | app/services/conversation_service.py:379-425 | Between runs the number of any stored message that fails permanently is suppressed, and a report for an unknown message changes nothing. |
| `Campaign.EarlyBounceIsLost` | app/services/conversation_service.py:386-390 | In every state with this one waiting recipient, the bounce of the only message of a live run arrives before the run is committed: the message stays sent and the number unsuppressed. |
| `Campaign.RolledBackRunRepeatsACall` | app/services/campaign_service.py:346-368 | A concrete run aborted by the open breaker whose retry gets a second message accepted for the same recipient. |
| `Campaign.RetryIsSafeExactlyWhen` | app/services/campaign_service.py:346-368 | No live run, whatever happens during it, gets a second message accepted for somebody a rolled-back run got one accepted for, exactly when none of those is still ELIGIBLE with a readable number. |
| `Campaign.RollbackExposesExactlyWhen` | app/services/campaign_service.py:346-368 | A first rolled-back run leaves such a recipient exactly when one of its calls had been accepted; calls the breaker refused do no harm. |
| `Campaign.ReportSuppressesExactlyWhen` | app/services/conversation_service.py:417-425 | A report suppresses a number exactly when it says FAILED with code 131026 or 131047 for a visible message of that number. |
| `Outcomes.CallDecides` | app/services/campaign_service.py:304-358 | A recipient that can be called when its turn comes is called exactly once, with its own variables, and ends the run SENT with the accepted id if the call is accepted and FAILED with the error's code if the API refuses it, whatever other sessions report or change afterwards; a run that meets the open breaker is not committed. |
| `Outcomes.NotCalled` | app/services/campaign_service.py:281-302 | A recipient whose hash is suppressed when its turn comes ends REJECTED as suppressed in mid-campaign, one whose number does not decrypt ends FAILED, one whose contact is gone is left as it was; none is called. |
| `Outcomes.AcceptedIsStored` | app/services/campaign_service.py:312-343 | An accepted call leaves a message stored as sent for its contact under the accepted id. |
| `Outcomes.CountsAreOfRows` | app/services/campaign_service.py:344-358 | The counts the brake looks at are the numbers of recipients the run turned SENT and FAILED, whatever happens during the run. |
| `Outcomes.CommittedRunIsCounted` | app/services/campaign_service.py:391-411 | What a run that is not rolled back commits is what it ended with, and its counters are the numbers of recipients with each status. |
| `Outcomes.RolledBackRowsWait` | app/workers/tasks.py:304-354 | A run that is rolled back leaves every recipient whose turn came waiting, as it was. |
| `CampaignServices.CampaignService.DispatchOne` | app/services/campaign_service.py:281-389 | One turn of the loop body: missing contact, suppressed, undecryptable, accepted, API error and open breaker, with counts, rows, messages and the brake, as in the step that Outcomes characterises. |
| `CampaignServices.CampaignService.ListByStatus` | app/repositories/campaigns.py:127-139 | The first `limit` ELIGIBLE rows in id order. |
| `CampaignServices.CampaignService.StageRecipients` | app/services/campaign_service.py:142-234 | The staging loop stages and reports exactly what staging the rows one after the other does, and nothing for a template that may not be sent. |
| `CampaignServices.CampaignService.StageRow` | app/services/campaign_service.py:157-226 | One imported row: missing, invalid and duplicate numbers, the gate, the row and the histogram, as in the step that StagedRows characterises. |
| `CampaignServices.CampaignService.RefreshCounters` | app/repositories/campaigns.py:70-89 | The counters are recomputed from the rows. |
| `CampaignServices.CampaignService.ExecuteCampaign` | app/services/campaign_service.py:236-411 | For every batch size, with every waiting recipient's contact present, and whatever other sessions commit between two recipients, a live run makes the same calls in the same order and leaves the same tables as one pass over the ELIGIBLE recipients in id order, those staged meanwhile included, that stops at the brake; an escaping error rolls back the run's own writes and nothing else; a dry run only recounts. |
| `CampaignServices.CampaignService.RunBatches` | app/services/campaign_service.py:278-389 | The nested batch loops end and equal the single pass. |
| `CampaignServices.CampaignService.DispatchNext` | app/services/campaign_service.py:279-373 | One recipient, and then what other sessions commit before the next. |
| `CampaignServices.CampaignService.AbsorbOne` | app/services/conversation_service.py:376-427 | A consent event, an import or a status report of another session in the middle of a run: the run's own messages are invisible to it, and its writes are in what a rollback leaves. |
| `CampaignServices.CampaignService.HandleStatus` | app/services/conversation_service.py:376-427 | A status webhook between runs: message, mirrored recipient, suppression after a permanent failure. |
| `Delivery.OutboundMessage.UpdateDeliveryStatus` | app/repositories/conversations.py:206-244 | Which status, time stamp and error code one webhook leaves. |
| `Delivery.StoredIsLastOfGreatestRank` | app/repositories/conversations.py:220-241 | After any webhooks the stored status is the last one of greatest rank since the last FAILED or DELETED, or since the start. |
| `Delivery.ReorderingKeepsRank` | app/repositories/conversations.py:220-233 | Reordering webhooks without FAILED or DELETED never changes the stored rank. |
| `Delivery.TerminalOnlyWhileLast` | app/repositories/conversations.py:220-233 | FAILED and DELETED survive exactly until the next webhook. |
| `Delivery.MirrorKeepsAgreeing` | app/services/conversation_service.py:393-415 | From agreement, one webhook keeps message and unguarded recipient mirror in agreement exactly when it is not DELETED, not DELIVERED after READ, and not an early status after FAILED. |
| `Delivery.MirrorAfterARun` | app/services/conversation_service.py:393-415 | Over any run of webhooks message and recipient end in agreement exactly when, after the last FAILED or DELETED, either READ is reported and no DELIVERED follows the last one, or DELIVERED but not READ is reported, or neither is and the run has no terminal status, ends in FAILED, or goes on with an early status after a DELETED before which nothing moved the recipient. |
| `Breaker.ReplayIsTrailing` | app/integrations/whatsapp_client.py:81-115 | After any history of records, from any interleaving of requests, the failure count is the trailing run of failures and the breaker has an opening time exactly when that run reached the threshold; the time is that of the last failure. |
| `Breaker.CircuitBreaker.RecordFailure` | app/integrations/whatsapp_client.py:108-111 | The fields stay what the history says. |
| `Breaker.CircuitBreaker.RecordSuccess` | app/integrations/whatsapp_client.py:104-106 | The fields stay what the history says. |
| `Breaker.WhatsAppClient.Send` | app/integrations/whatsapp_client.py:275-348 | The retry loop makes the calls, records, sleeps and outcome of the specification. |
| `Breaker.CallsAndSleeps` | app/integrations/whatsapp_client.py:286-348 | Calls stop at the first answer that is not retryable, never exceed max_retries + 1, with one sleep between two calls and its exact length; all calls but the last record a failure. |
| `Breaker.TotalSleep` | app/integrations/whatsapp_client.py:267-273 | Without Retry-After the total sleep is at most the sum of min(2^i, 30). |
| `Breaker.EachSleepIsShort` | app/integrations/whatsapp_client.py:267-273 | No sleep is longer than a minute, with or without Retry-After. |
| `Breaker.RefusedExactlyWhen` | app/integrations/whatsapp_client.py:279-283 | A request makes no call exactly when it begins inside the reset window of a run of failures that reached the threshold. |
| `Breaker.AfterARequest` | app/integrations/whatsapp_client.py:275-348 | An admitted request leaves the breaker closed unless all its calls failed; then they extend the run, and the breaker opens at the last failure if the run reaches the threshold. |
| `Breaker.HalfOpenFailureReopens` | app/integrations/whatsapp_client.py:90-111 | In the half-open state one failure reopens the breaker at once. |
| `Breaker.RetriesIgnoreTheBreaker` | app/integrations/whatsapp_client.py:286-348 | The retry loop does not look at the breaker again: an admitted request makes all its calls even after they opened it. |
| `Breaker.RetriedExactlyWhen` | app/integrations/whatsapp_client.py:34-65 | A request goes on after its first answer exactly for a network error, a transient code whatever the status, or, without a permanent code, status 429 or 5xx; no code is in both lists. |
| `Breaker.HardBouncesAreNotRetried` | app/integrations/whatsapp_client.py:48-65 | The two codes for numbers that cannot be reached end a request at once. |
| `Breaker.SleepIs` | app/integrations/whatsapp_client.py:267-273 | Each sleep is what Retry-After asks for, up to a minute, and otherwise the jittered share of 1, 2, 4, 8, 16 and from then on 30 seconds. |
| `Ledger.ExactlyOneWins` | app/repositories/conversations.py:307-342 | With claim modelled as a read and a unique insert, in every interleaving of any number of workers and purges exactly one completed claim of a key wins between two deletions of its row, and wins = deletions + one while the row is there. |
| `Ledger.RaceHasOneWinner` | app/repositories/conversations.py:321-342 | Two workers whose reads both saw nothing: the second insert loses. |
| `Ledger.StatusKeysAreDistinct` | app/integrations/webhook_parser.py:299-301 | Keys of two status events are equal exactly when message id and status word are, whatever the ids contain. |
| `Ledger.WebhookEvents.Claim` | app/repositories/conversations.py:307-342 | One claim on its own: it wins exactly when the key is new, and otherwise counts an attempt. |
| `Ledger.WebhookEvents.ClaimAll` | app/api/webhooks.py:98-127 | The claim-then-enqueue loop keeps exactly the first occurrences of new keys, in order. |
| `Ledger.WebhookEvents.Handle` | app/api/webhooks.py:86-173 | Messages then statuses share one key space; without a database everything counts as claimed; without a dispatcher nothing is enqueued but it is still counted. |
| `Ledger.FirstsAreDistinct` | app/api/webhooks.py:95-166 | No key is enqueued twice and every new key is. |
| `Ledger.EachKeyOnce` | app/api/webhooks.py:95-166 | However events are cut into webhook calls and repeated, what is enqueued is the first occurrence of each key. |
| `Ledger.RetryEnqueuesNothing` | app/api/webhooks.py:95-166 | A retried webhook enqueues nothing. |
| `Reply.Accept` | app/domain/schemas.py:57-92 | Confidence is clamped to 0..1 and a safety flag always asks for a person. |
| `Reply.KeptAreKnown` | app/services/intent_service.py:257-273 | The sources kept are all retrieved ones, all of the claimed ones exactly when every one was retrieved, and none exactly when none was. |
| `Reply.PostValidationOnlyLowers` | app/services/intent_service.py:229-276 | For any model output confidence never rises, the sources left are retrieved, and a disabled intent, missing context or only invented sources caps the confidence at the escalation threshold. |
| `Reply.ClampKeepsAPrefix` | app/services/response_service.py:65-71 | The length clamp returns a prefix within the limit, whole if it fits, cut after the last sentence mark past the middle if there is one, otherwise cut to the limit less the trailing whitespace, and never empty for a text that starts visibly. |
| `Reply.BoundaryIsAMark` | app/services/response_service.py:69 | The boundary is the last sentence mark with a space behind it in the window. |
| `Reply.SanitisedFits` | app/services/response_service.py:56-71 | Sanitised texts fit the limit and are empty only if nothing visible survives the scrubbing. |
| `Reply.EveryReplyFits` | app/services/response_service.py:146-336 | Every composed reply is within max_response_chars, the suffix included. |
| `Reply.DraftedRepliesAreGrounded` | app/services/response_service.py:146-336 | For any model output, a model-drafted reply cites only retrieved chunks, at least one where grounding is required, answers no consent or consequential intent, and when escalate < reply needs retrieved context unless it greets. |
| `Reply.UngroundedExactlyWhen` | app/services/response_service.py:276-296 | Some model output gets an answer without any context sent exactly when the two thresholds are equal, because the cap is the escalation threshold and the hand-over test is strict. |
| `Reply.ConsentIsDelegatedExactlyWhen` | app/services/intent_service.py:187-227 | A message without a keyword ends as a consent intent exactly when the model says so and the intent is enabled; an OPT_OUT from the model is answered with the opt-out text. |
| `Reply.Validated` | app/services/intent_service.py:229-276 | What post-validation leaves, said of the raw output: the intent acted on, when the confidence still reaches the reply threshold, that the cap alone never brings it below the lower one, and when a source is left. |
| `Reply.DraftedExactlyWhen` | app/services/response_service.py:146-336 | For any raw model output, its text is sent exactly when no rule fired and the model answered, no flag is raised and no person asked for, no fixed text settles the intent, the claimed confidence reaches the reply threshold and is not capped below it, a grounding-required answer claims a retrieved source, and something visible survives sanitising. |
| `Reply.EscalatesExactlyWhen` | app/services/response_service.py:146-336 | For any raw model output, the exact condition under which the reply hands over to a person; the cap alone never does. |
| `Reply.PausesExactlyWhen` | app/services/response_service.py:223-262 | For any raw model output, the bot is paused exactly for a request for a person by keyword, or, without a flag, by the model, or for an enabled complaint. |
| `Reply.AnswerSays` | app/services/response_service.py:146-336 | Which fixed text answers which rule, flag or intent, for any model output, and why a person is called in: the emergency text for somebody in danger, nothing of the model's words for any flag. |
| `Reply.ComposeQuotes` | app/services/response_service.py:298-336 | When the model's words are used they are sent sanitised, with the outside-hours text behind them exactly when both fit; when they cannot be used, the text for what is not known. |
| `Reply.KeptEach` | app/services/intent_service.py:257-273 | A claimed source is kept where it stands if it was retrieved and dropped otherwise. |
| `Takeover.HandleLogs` | app/services/conversation_service.py:210-373 | What one message does to the pauses, and that a paused contact gets at most the opt-out confirmation. |
| `Takeover.SilenceOverEveryRun` | app/services/conversation_service.py:245-278 | Over every run of messages and operator actions, after a message paused the bot for its contact, later messages of that contact are answered by nothing but the opt-out confirmation until a resuming resolve or an operator resume. |
| `TakeoverTheorems.TicketsStayUniqueExactlyWhen` | app/repositories/consent.py:111-153 | An action keeps at most one unresolved ticket per conversation exactly when it is not an acknowledgement of a resolved ticket whose conversation has another unresolved one. |
| `TakeoverTheorems.LiveStaysUniqueExactlyWhen` | app/services/escalation_service.py:203-231 | An action keeps at most one live conversation per contact exactly when it is not a resuming resolve that revives a closed or expired conversation beside a live one. |
| `TakeoverTheorems.UniqueExactlyWhenCareful` | app/services/escalation_service.py:125-240 | Over a whole run both hold at every point exactly when every action avoids those two cases at its turn. |
| `TakeoverTheorems.GetOrCreateKeepsOneLive` | app/repositories/conversations.py:71-93 | Finding or creating the conversation of a message keeps one live conversation per contact and returns a live one. |
| `TakeoverTheorems.ConsentOverEveryRun` | app/services/conversation_service.py:210-373 | Messages, their opt-outs and opt-ins, and everybody else's consent events keep the consent invariant over every run. |
| `TakeoverTheorems.StopWordIsKeptExactlyWhen` | app/services/conversation_service.py:245-272 | A stop word suppresses its sender exactly when the confirmation is not attempted or goes out; a failed send undoes the whole message, opt-out included. |
| `TakeoverTheorems.ModelLiftsSuppressionExactlyWhen` | app/services/conversation_service.py:324-331 | A message without a keyword lifts its sender's suppression exactly when it is processed and the model calls it an opt-in. |
| `TakeoverTheorems.RepliesFit` | app/services/conversation_service.py:332-360 | Composed replies that are sent are not empty and within the limit. |
| `TakeoverTheorems.MessageGoesTo` | app/repositories/conversations.py:71-99 | A message goes to the contact's live conversation if that has not run out and otherwise to a new one, which lasts from now for the whole expiry time; other conversations at most expire. |
| `TakeoverTheorems.AnswerIsSentExactlyWhen` | app/services/conversation_service.py:332-373 | The answer to a processed message is sent exactly when it is not empty, the number is readable, the message is less than a day old and the send does not fail; the contact is paused exactly when the answer says so. |
| `TakeoverTheorems.TicketIsOpenedExactlyWhen` | app/services/escalation_service.py:125-200 | A processed message leaves its conversation with an open ticket exactly when it had one or the answer hands over; a new ticket is for that conversation and contact and marks the conversation. |
| `TakeoverTheorems.FixedTextsAreSent` | app/services/conversation_service.py:245-297 | A stop word is confirmed and an unsupported message answered exactly when the text can be sent; when the send fails the message leaves no trace. |
| `TakeoverTheorems.ResolveUndoesEscalate` | app/services/escalation_service.py:203-231 | Resolving a fresh ticket with a resume takes back what the handover did: no open ticket, no pause, the conversation active. |
| `TakeoverTheorems.ExpiredAre` | app/repositories/conversations.py:125-141 | Expiring leaves no live conversation that has run out, touches no other, and counts those it changed. |
| `TakeoverServices.ConversationService.HandleInbound` | app/services/conversation_service.py:210-373 | The step order of one inbound message on the tables: opt-out, pauses, unsupported, blank, analysis; failed sends of fixed texts roll everything back. |
| `TakeoverServices.ConversationService.FindOrCreate` | app/repositories/conversations.py:71-93 | Reuses the contact's newest live conversation, or expires it if it has run out and creates a new one. |
| `TakeoverServices.ConversationService.EscalateConversation` | app/services/escalation_service.py:125-200 | Reuse or create the ticket, mark the conversation, pause the contact. |
| `TakeoverServices.ConversationService.ResolveEscalation` | app/services/escalation_service.py:203-231 | Close the ticket and, if resuming, unpause the contact and reactivate the conversation. |
| `TakeoverServices.ConversationService.AcknowledgeEscalation` | app/services/escalation_service.py:233-240 | Mark the ticket acknowledged, whatever its status was. |
| `TakeoverServices.ConversationService.ProcessMessage` | app/services/conversation_service.py:296-373 | Analysis, opt-in, composition, escalation and send, in that order; an opt-in dated ahead undoes the message, a failed send does not. |
| `TakeoverServices.ConversationService.ExpireStaleConversations` | app/repositories/conversations.py:125-141 | Expire exactly the live conversations that have run out, and return how many there were. |

## Left out

- SQLAlchemy sessions, migrations and business ids: tables are sequences, sets and maps of one business, with their unique constraints. Only the rollbacks that decide a property are modelled.
- HTTP, the provider and queue clients: outcomes are arbitrary. Timeouts are network errors.
- Encryption and phone parsing: a stored number is readable or not, and normalisation is an arbitrary partial function.
- `json.loads`, the fence and reasoning-block patterns: the parser is an arbitrary function and the fenced part is a parameter.
- NFKD decomposition, accent stripping and lower-casing: keyword cleaning is an arbitrary map from characters to strings, so contextual lower-casing is not covered; retrieval documents are given as token lists.
- Leak, injection and markdown patterns: scrubbing is an arbitrary function of the text; whether a message looks like an injection is an input.
- Embeddings and the cosine blend: the search is the lexical one.
- Floating point: scores, rates, confidences and delays are real numbers; rounding of scores is an arbitrary function.
- Daylight-saving changes: quiet hours use a fixed offset; business hours decide only whether a suffix is added.
- The intent list printed before the knowledge block is assumed not to contain the block's heading; it is made of enum values and a fixed text that does not.
- Hydration of template variables: a recipient's variables are the list passed to the call.
- The conversation and message rows the campaign loop stores besides the message's status, pause reasons, ticket summaries, the CRM push, message history, and the intent recorded on a conversation.
- Dead letters and the bookkeeping of failed jobs: these writes are rolled back with the exception that causes them.
- No code sets the states HUMAN_HANDLING, PAUSED or AWAITING_CUSTOMER of a conversation; the model checks for the first as the code does.
- Ledger reads may miss rows not yet visible to them, but a claim's own commit is taken to succeed.
- Message event keys (an id, or a payload fingerprint) are arbitrary strings; only the form of status keys is modelled.
- The deterministic provider's own phrase matching; turning services, FAQs and policies of the business configuration into one-chunk entries; the dashboards, health checks, template editing and statistics of the admin interface; reading settings; logging and redaction; the set-up scripts.
- Within a live run, the suppression check and the call of one recipient are one step: an opt-out committed between the two is ordered before or after both. Row locks can delay another session's commit; the model lets it commit at once, which allows more orders than the database does.
- Two live runs of one campaign at the same time: RUNNING is visible only after the commit, so nothing in the code excludes them; the model runs one at a time.
- During one run other sessions commit finitely many actions; a run that is kept busy by endless staging is not a run that ends.
- CampaignServices.CampaignService.ExecuteCampaign: asks that no waiting recipient's contact be gone, because otherwise the loop does not end, which Batches.RunCompletesExactlyWhen states as an equivalence.
- FailureBrake.StoppedAtTheLimitExactlyWhen: speaks of runs nobody stages recipients into, because whom an import can add depends on the arbitrary normalisation of numbers; FailureBrake.ReadableNumbersMeetTheLimit covers runs with imports when every number decrypts.
- PromptRoundTrip.ChunksAreRecovered: asks that the printed hits have single-token ids, one-line titles, stripped non-empty bodies and no end heading, as the index builds them; a file name with a space makes an id whose header is not read, which PromptRoundTrip.HeaderIsReadExactlyWhen states.
