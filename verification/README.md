# Verified models of the SmartProctoring logic

Dafny models of the parts of SmartProctoring whose correctness is least obvious, with proofs of what they promise. Each
module follows one piece of the program, branch by branch; a loop of the program is a method proved against a function,
and the theorems are lemmas about that function.

- **Integration API document.** `ZodSchema` gives a zod schema its meaning (what parses, and to what), `JsonSchema` gives a
  JSON Schema 2020-12 its meaning (Validation sections 6.1 to 6.5, Core sections 8.2.3.1, 10.2.1, 10.3), `OpenApi` is
  the converter. `OpenApiKeywords`, `OpenApiMeaning`, `OpenApiEquivalence` and `ZodOutputs` prove that conversion keeps
  the meaning; `OpenApiBounds`, `OpenApiLimits` and `OpenApiIntersections` say where it does not, and exactly when.
  `OpenApiAnnotations` is about the two keywords without a meaning for validity, `OpenApiRefusals` about errors.
- **Incidents.** `Incidents` and `IncidentReport`: the sort, the sweep with its clipped end, the summaries.
- **Accommodations.** `PolicyTree` (settings as a tree of dotted paths, differences, reverting), `Policies` (mode rules and
  resolution), `Accommodations`, `AccommodationExceptions`, `AccommodationAttribution`.
- **Test mail.** `Smtp` (a line protocol over a chunked stream), `QuotedPrintable`, `Multipart`.
- **Test camera.** `CameraShim` (a scheduler of chunks, frames and a clock) and `JpegCache` (a byte-bounded LRU cache).
- **Recognizer tools.** `Suppression`, `Alignment` and `Clahe`, over the reals; `Reals` holds their arithmetic and `Integers`
  that of frame numbers and times.
- **Server arithmetic and configuration.** `RateComparison` and `StorageLocations`.

Findings about the program, each proved with a concrete or general input:

- `.trim()` with a length bound: the emitted `minLength` and `maxLength` are about the untrimmed text. With a maximum,
  as in the registered `RescheduleRequest`, the document even refuses texts that the server accepts
  (`OpenApiBounds.TrimCarriesBoundsIff`).
- A repeated bound, an exact array length with a looser bound, a default on a discriminator and an intersection whose
  sides return members that do not merge (two defaults, or one side that trims) also convert to a schema with another
  meaning, each under an exact condition.
- A nullable null lists `null` twice in `type`, which section 6.1.1 of JSON Schema Validation forbids.
- The kinds an exception names are documented as those that changed it, but are those listed for its path: detection
  exemptions are named for camera problems, which they cannot change, and for detectors they do not list; identity
  verified by staff, or no camera, is named for a re-verification that it does not ask for.
- The SMTP sink stores its recipient list and not a copy: an RCPT after the final dot extends the stored message.
- The SMTP sink keeps the dot of a data line that starts with a single dot, unlike section 4.5.2 of RFC 5321.
- The quoted-printable decoder turns a literal character outside the basic plane into two replacement characters.
- The camera shim does not tell a `show` of an earlier opening from one of this opening: after a reopen it can put a frame
  on the canvas that is not yet due, and the canvas then stands still until the clock has caught up.
- The camera shim keeps the frames of a failed warm-up: every later opening waits for the same failed answers and asks for
  nothing anew, so the camera of that page never opens.
- `optional` around a default: the document still promises the default, but the server leaves the value undefined.
- The overlap check of storage locations compares directories as written, while files go where they resolve to: a
  trailing separator hides a nested directory. Where it does report an overlap, blobs can in fact meet only if the part
  between the two places is part of a valid key.

## Model

| member | source | states |
|---|---|---|
| ZodOutputs.PlainOutput | packages/shared/src/openapi.ts:161-162 | A schema without transforms and defaults outputs its input with object members left out and nothing else changed |
| ZodOutputs.OutputShape | packages/shared/src/openapi.ts:161-162 | Which members a parse may have touched bounds how its output can differ from the input |
| ZodOutputs.MergeableMerges | packages/shared/src/openapi.ts:161-162 | Under the stated condition on both sides, the two outputs of an intersection always merge, so zod refuses nothing `allOf` accepts |
| OpenApi.StringSchema | packages/shared/src/openapi.ts:83-97 | The loop over string checks computes the keyword function, unsupported checks included |
| OpenApi.NumberSchema | packages/shared/src/openapi.ts:98-108 | The loop over number checks computes the keyword function and the integer type |
| OpenApi.ConvertUse | packages/shared/src/openapi.ts:58-66 | A use of a registered schema is a reference; otherwise its conversion with the outermost description |
| OpenApi.ConvertNode | packages/shared/src/openapi.ts:80-176 | Every case of the switch computes the conversion function |
| OpenApi.ArraySchema | packages/shared/src/openapi.ts:121-127 | Items and the three length fields in the order in which they are assigned |
| OpenApi.ObjectSchema | packages/shared/src/openapi.ts:128-142 | The loop over the shape builds properties and required names; catch-all before strictness |
| OpenApi.RecordSchema | packages/shared/src/openapi.ts:143-148 | Values under additionalProperties; property names only for an enum key |
| OpenApi.CombinationSchema | packages/shared/src/openapi.ts:157-162 | Unions, discriminated unions and intersections become anyOf, oneOf and allOf of their converted parts |
| OpenApi.ConvertOptions | packages/shared/src/openapi.ts:157-160 | Options are converted in order and the first failure stops |
| OpenApiKeywords.BuildComponents | packages/shared/src/openapi.ts:295-297 | The table holds the conversion of every registered schema and is built if and only if each of them converts |
| OpenApiKeywords.ConversionKeepsRank | packages/shared/src/openapi.ts:58-61 | A converted schema follows references no deeper than the zod schema does, so validation with the table ends, recursion included |
| OpenApiKeywords.TextSound | packages/shared/src/openapi.ts:85-95 | Text that passes the checks satisfies the emitted keywords, transforms of case included |
| OpenApiKeywords.TextComplete | packages/shared/src/openapi.ts:85-95 | Without a repeated kind of check, text that satisfies the keywords passes the checks |
| OpenApiKeywords.NumberSound | packages/shared/src/openapi.ts:101-106 | Numbers that pass the checks satisfy the emitted keywords |
| OpenApiKeywords.NumberComplete | packages/shared/src/openapi.ts:101-106 | Without a repeated kind of check, numbers that satisfy the keywords pass the checks |
| OpenApiMeaning.NullableMeaning | packages/shared/src/openapi.ts:69-77 | Rewriting for nullable accepts exactly the old values and null, for every schema with the shape invariant |
| OpenApiMeaning.EmittedTyped | packages/shared/src/openapi.ts:69-77 | Every emitted schema has that invariant: with a single type there is no reference, anyOf, oneOf or allOf beside it |
| OpenApiMeaning.ObjectMeaning | packages/shared/src/openapi.ts:128-142 | A converted object accepts an object exactly if declared members fit, required ones are there and the others are allowed |
| OpenApiMeaning.RequiredMeaning | packages/shared/src/openapi.ts:134-137 | `required` asks for exactly the fields for which undefined does not parse |
| OpenApiMeaning.ReferenceMeaning | packages/shared/src/openapi.ts:59-60 | A reference accepts what the conversion of the registered schema accepts |
| OpenApiMeaning.DiscriminatorMeaning | packages/shared/src/openapi.ts:115-120 | What a converted discriminator field accepts is one of the values zod reads off it |
| OpenApiMeaning.OptionMeaning | packages/shared/src/openapi.ts:159-160 | An object a converted option accepts carries one of the option's discriminator values, also when it is a reference |
| OpenApiEquivalence.OneOfMeansDispatch | packages/shared/src/openapi.ts:159-160 | No object is valid for two converted options of a discriminated union; with defaulted discriminators, if it carries the discriminator |
| OpenApiEquivalence.DispatchAgrees | packages/shared/src/openapi.ts:159-160 | Without defaults, or with the discriminator present, `oneOf` accepts what dispatching on the discriminator accepts |
| OpenApiEquivalence.ConversionPreservesMeaning | packages/shared/src/openapi.ts:58-176 | Main theorem: the emitted schema accepts a JSON value if and only if the zod schema does, references resolved in the table; only the registered schemas that can be reached need to be of the exact class |
| OpenApiEquivalence.ConversionIsSound | packages/shared/src/openapi.ts:58-176 | With refinements, repeated checks or open record keys, what zod accepts is still valid; again only reachable registered schemas matter |
| OpenApiLimits.ConvertsIffSupported | packages/shared/src/openapi.ts:80-175 | Conversion succeeds if and only if every feature in the schema is a supported one |
| OpenApiLimits.ReferencesResolve | packages/shared/src/openapi.ts:58-61 | Every reference in an emitted schema has an entry in the table if and only if every name the schema uses is registered |
| OpenApiLimits.ReferencesAreUses | packages/shared/src/openapi.ts:58-61 | The references in an emitted schema are the registered names the zod schema uses, at any depth |
| OpenApiLimits.ArrayBoundsAgreeIffExact | packages/shared/src/openapi.ts:123-125 | The emitted item counts mean the same lengths exactly when no bound overrides an exact length with a looser one |
| OpenApiBounds.RepeatedLengthsAgreeIff | packages/shared/src/openapi.ts:86-88 | For any list of min, max and length checks, in any order: keywords and zod agree on every text if and only if the last bounds are the tightest or admit nothing |
| OpenApiBounds.RepeatedBoundsAgreeIff | packages/shared/src/openapi.ts:100-106 | For any list of inclusive and exclusive bounds, with or without int: keywords and zod agree on every number if and only if the last bounds of the four keywords are together the tightest (for integers once rounded) or admit nothing |
| OpenApiBounds.RepeatedStepsAgreeIff | packages/shared/src/openapi.ts:104 | Of several multipleOf steps the last one stands: right if and only if it is a multiple of each of them, or 0 |
| OpenApiBounds.TrimmedLengthsAgreeIff | packages/shared/src/openapi.ts:86-94 | Trim and then any list of length checks converts faithfully if and only if the emitted bounds admit nothing or no bound excludes a text |
| OpenApiBounds.TrimmedLengthsSoundIff | packages/shared/src/openapi.ts:86-94 | What zod accepts after trim is valid for the keywords if and only if zod accepts nothing or no check is a maximum |
| OpenApiBounds.TrimCarriesBoundsIff | packages/shared/src/scheduling.ts:96 | Trim with an optional minimum and an optional maximum: when the meaning is the same, and when the conversion is sound |
| OpenApiLimits.DefaultedUnionDiffersIff | packages/shared/src/openapi.ts:153-160 | With defaulted discriminators, zod and the emitted oneOf differ on a value if and only if it is an object without the discriminator that an option not taken for undefined accepts, either as the only such option or beside the option zod dispatches to |
| OpenApiLimits.OnlyStrays | packages/shared/src/openapi.ts:153-160 | If no option is taken for undefined, that condition says: the discriminator is missing and exactly one converted option accepts |
| OpenApiLimits.DefaultedDiscriminatorDiffers | packages/shared/src/openapi.ts:153-160 | A concrete case: one option, one defaulted field, the empty object is refused by zod and valid for oneOf |
| OpenApiIntersections.IntersectionDiffersIff | packages/shared/src/openapi.ts:161-162 | For any two sides that convert exactly: zod and allOf differ on a value if and only if both sides accept it and their outputs do not merge |
| OpenApiIntersections.ObjectReturns | packages/shared/src/openapi.ts:161-162 | Member by member, what an object schema returns: fields as their schema returns them, others by catch-all and strictness |
| OpenApiIntersections.ObjectIntersectionDiffersIff | packages/shared/src/openapi.ts:161-162 | For object schemas that convert exactly: they differ if and only if both sides accept an object for which some member both return has two outputs that do not merge |
| OpenApiIntersections.OrdinaryIntersectionDiffersIff | packages/shared/src/openapi.ts:153-162 | If the members both sides can return are plain, or plain with a default: if and only if both accept an object that lacks a member with two defaults that do not merge |
| OpenApiIntersections.ConflictingDefaultsDiffer | packages/shared/src/openapi.ts:153-162 | Two defaults for one member of any value: allOf accepts every object, zod those that have the member, and the others only if the defaults merge |
| OpenApiIntersections.OneSideTrims | packages/shared/src/openapi.ts:94-162 | A text that one side trims: allOf accepts every text, zod only texts that are trimmed already |
| OpenApiLimits.TypeNamesRepeatIffNull | packages/shared/src/openapi.ts:71-73 | The widened type list names a type twice exactly when the type was null |
| OpenApiAnnotations.DefaultIsEmitted | packages/shared/src/openapi.ts:153-154 | A schema with a default converts to one with that default |
| OpenApiAnnotations.WrapperDefault | packages/shared/src/openapi.ts:69-176 | Any other wrapper passes on the default of what it wraps; only a null added as an alternative hides it |
| OpenApiAnnotations.NoDefaultIsInvented | packages/shared/src/openapi.ts:58-176 | Without a default in the chain of wrappers none is emitted |
| OpenApiAnnotations.DefaultIsFilledIn | packages/shared/src/openapi.ts:153-154 | What is emitted as default is what zod fills in: leaving the value out parses as giving the emitted default does |
| OpenApiAnnotations.OptionalHidesDefault | packages/shared/src/openapi.ts:149-154 | Around a default, optional still emits it; it is what zod fills in if and only if the default parses to undefined anyway |
| OpenApiAnnotations.DescriptionIsOutermost | packages/shared/src/openapi.ts:63-66 | The emitted description is the outermost one in the chain of wrappers that is not empty |
| OpenApiRefusals.RefusalNamesAFeature | packages/shared/src/openapi.ts:80-175 | The error of a refused schema names a check, literal or kind that the schema holds, at whatever depth |
| OpenApiRefusals.LiteralIsTyped | packages/shared/src/openapi.ts:115-120 | A literal becomes a constant of the type that says most about it: number only for a fraction |
| Incidents.SortedUnique | packages/shared/src/incidents.ts:56-59 | With distinct ids there is one sorted arrangement of the flags |
| Incidents.SweepFlags | packages/shared/src/incidents.ts:60-71 | The loop with its running end computes the recursive sweep |
| Incidents.SweepPartitions | packages/shared/src/incidents.ts:60-71 | The groups are nonempty and in order make up the flags |
| Incidents.NearMeansWithinGap | packages/shared/src/incidents.ts:63-64 | Being near, which is defined on the start, the end and whether a flag is open, means that each clipped span starts at most the gap after the other ends |
| Incidents.SweepIsComponents | packages/shared/src/incidents.ts:60-71 | Two flags share a group if and only if a chain of flags with near clipped spans links them |
| Incidents.RaisingOnlyMerges | packages/shared/src/incidents.ts:53-71 | Raising now, the gap or the chain never separates two flags of a group |
| Incidents.GroupSpread | packages/shared/src/incidents.ts:62-71 | The i-th flag of a group starts at most i times (gap + chain) after its first |
| IncidentReport.CountTypes | packages/shared/src/incidents.ts:73-78 | The loop that counts types computes the tally |
| IncidentReport.TallyCounts | packages/shared/src/incidents.ts:73-78 | Each type once, with its number of occurrences, in order of first appearance, none missing |
| IncidentReport.SummaryMeaning | packages/shared/src/incidents.ts:79-87 | On the fields of the flags: the most serious category, the most severe severity, the last start, end or now, open exactly if a flag is, the undecided ones counted and the ids in order |
| IncidentReport.IncidentStartsFirst | packages/shared/src/incidents.ts:59-83 | An incident has the id and the start of its earliest flag, of several with one start that of the smallest id, and its flags in that order |
| IncidentReport.GroupIncidents | packages/shared/src/incidents.ts:53-94 | The whole function: the summaries of the swept groups of the sorted flags |
| IncidentReport.InputOrderIsIrrelevant | packages/shared/src/incidents.ts:56-59 | Any order of the same events with distinct ids gives the same groups |
| IncidentReport.IncidentOf | packages/shared/src/incidents.ts:97-99 | The incident found lists the id, and none is returned only if no incident does |
| IncidentReport.IncidentOfFlag | packages/shared/src/incidents.ts:97-99 | An event is found if and only if its category is integrity, uncertain or technical, and then in its own group |
| IncidentReport.SameIncidentIffConnected | packages/shared/src/incidents.ts:53-99 | Two flags are found in the same incident if and only if they are connected |
| IncidentReport.OpenFlagCollects | packages/shared/src/incidents.ts:62-71 | A flag that starts after an open one, up to the gap after now and after the chain, is in its incident |
| IncidentReport.ClosedFlagCollects | packages/shared/src/incidents.ts:62-71 | A closed flag collects what starts up to the gap after its end, or after the chain if that is earlier |
| IncidentReport.LaterEventsKeepIncidents | packages/shared/src/incidents.ts:60-71 | Events that sort after all others, in whatever order they come, leave every incident but the last as it is; the last keeps its id and its flags in front |
| PolicyTree.SplitJoin | packages/shared/src/accommodations.ts:394 | Splitting a dotted path gives back the keys it was joined from |
| PolicyTree.PolicyExceptions | packages/shared/src/accommodations.ts:375-387 | The loop over the applied settings lists exactly the differences, behind a duration exception if extra time is granted |
| PolicyTree.DurationIsListedIff | packages/shared/src/accommodations.ts:375-387 | A duration is listed, and first, if and only if there is extra time: from the exam's to that much more |
| PolicyTree.RevertExceptions | packages/shared/src/accommodations.ts:390-400 | The loop over the exceptions assigns each setting its exam value, missing branches created |
| PolicyTree.AssignChangesOne | packages/shared/src/accommodations.ts:394-397 | Assigning along a path changes that setting and no other, and keeps the shape |
| PolicyTree.RoundTripIffSameShape | packages/shared/src/accommodations.ts:375-400 | Reverting the differences gives back the exam policy if and only if both trees have the same shape |
| Policies.EnforceModesOf | packages/shared/src/accommodations.ts:306-314 | The in-place version of the mode rules agrees with the one that builds a new policy, on every policy |
| Policies.ModesAreAClosure | packages/shared/src/policy.ts:286-296 | The result is consistent, and a policy is a fixpoint if and only if it is consistent; so the rules are idempotent |
| Policies.ResolvedIffFixpoint | packages/shared/src/policy.ts:266-334 | A policy is within bounds, consistent and rightly labelled if and only if resolving it gives it back |
| Policies.ResolveIsIdempotent | packages/shared/src/policy.ts:332-334 | What resolves is resolved, and resolving again changes nothing |
| Policies.NothingStoredResolvesTo | packages/shared/src/policy.ts:18-49 | What a stored policy without any field stands for, field by field |
| Policies.SamplingFollows | packages/shared/src/policy.ts:53-57 | A routine burst that is not stored follows the burst, and the profile follows the numbers and not the stored label |
| Policies.BalancedIsRecognised | packages/shared/src/policy.ts:53-57 | The numbers of the balanced preset are labelled so, whatever label is stored |
| Policies.IdentityBounds | packages/shared/src/policy.ts:24-31 | Each number of the identity section resolves exactly within its bounds |
| Policies.SampleBounds | packages/shared/src/policy.ts:37-49 | So do the bursts and the number of attempts |
| Policies.OtherBounds | packages/shared/src/policy.ts:266-334 | So do the limits on pauses and the numbers of the browser and evidence sections |
| Accommodations.ApplyAccommodations | packages/shared/src/accommodations.ts:257-303 | The loop with its switch computes the fold of steps and the mode rules |
| Accommodations.Exempt | packages/shared/src/accommodations.ts:285-287 | The loop over exemptible detectors turns off exactly those that are exempt |
| Accommodations.RestBreaksLeave | packages/shared/src/accommodations.ts:263-276 | What rest breaks leave, for every list: no limit exactly if the exam or some grant has none, else the largest of them, in seconds 60 for each granted minute; without a grant the exam's pause rules |
| Accommodations.SameAccommodationsSamePolicy | packages/shared/src/accommodations.ts:253-303 | Lists with the same members, in any order and with any repetition, give the same policy |
| Accommodations.MoreIsNeverStricter | packages/shared/src/accommodations.ts:253-303 | A larger list is never stricter on any pause, browser or detection rule |
| Accommodations.ReverifiesIffGranted | packages/shared/src/accommodations.ts:291-297 | Staff re-verification is asked for exactly if the exam or a granted accommodation asks for it |
| Accommodations.AppliedIsResolved | packages/shared/src/accommodations.ts:302-314 | From a resolved policy the result is within the schema bounds and a fixpoint of resolving |
| Accommodations.AccommodationExtraTime | packages/shared/src/accommodations.ts:317-325 | The loop sums the extra time of the extra-time grants, others skipped |
| Accommodations.ExtraTimeOfOne | packages/shared/src/accommodations.ts:322 | One grant adds 60000 for each minute and the share rounded to the nearest millisecond, halves up |
| Accommodations.ExtraTimeAdds | packages/shared/src/accommodations.ts:316-325 | The extra time of two lists together is the sum of theirs |
| Accommodations.ExtraTimeIgnoresOrder | packages/shared/src/accommodations.ts:316-325 | Permuted lists give the same extra time |
| AccommodationExceptions.StoredWell | packages/shared/src/accommodations.ts:369-372 | A stored policy has distinct plain keys on every level |
| AccommodationExceptions.StoredSameShape | packages/shared/src/accommodations.ts:369-372 | Accommodations keep the shape of the stored policy |
| AccommodationExceptions.ExamRulesComeBack | packages/shared/src/accommodations.ts:374-400 | For every policy and every list, reverting the listed exceptions gives back the exam's own rules, with or without extra time |
| AccommodationAttribution.EveryChangeIsCaused | packages/shared/src/accommodations.ts:257-314 | A rule that ends up changed is changed by one granted accommodation alone, of a kind listed for the rule |
| AccommodationAttribution.PathIsListed | packages/shared/src/accommodations.ts:357-367 | Which kinds the first listed prefix of each rule's path holds |
| AccommodationAttribution.NamedInOrder | packages/shared/src/accommodations.ts:384 | The kinds of an exception are named in the order in which they are listed, each if it is granted |
| AccommodationAttribution.ListedIffCanChange | packages/shared/src/accommodations.ts:256-367 | A kind is listed for a rule if and only if some valid accommodation of the kind changes the rule of some resolved policy; the one entry too many is detection_exemptions for camera problems |
| AccommodationAttribution.NamedKindChangedIff | packages/shared/src/accommodations.ts:137 | Of the kinds named for a changed rule, one holds a granted accommodation that changes it by itself if and only if it brings what the rule asks for: an exemption must list the rule's detector, and for re-verification a grant must ask for it |
| AccommodationAttribution.NamedKindsIff | packages/shared/src/accommodations.ts:375-386 | The same for every listed exception; and each granted accommodation that changes the setting by itself is of a named kind |
| AccommodationAttribution.ExemptionNamedInVain | packages/shared/src/accommodations.ts:365-384 | With no camera beside it, an exemption is named for the end of camera problem observation, which no exemption can change |
| AccommodationAttribution.EveryExceptionIsAttributed | packages/shared/src/accommodations.ts:375-386 | Every listed exception is a known rule and names a kind that is present and by itself changes that setting |
| Smtp.Session.OnLine | e2e/lib/integrations.ts:222-262 | One line changes the connection as the command table says, data lines and the final dot included |
| Smtp.Session.OnData | e2e/lib/integrations.ts:215-263 | A chunk is handled as the drained buffer, and no complete line stays in it |
| Smtp.ChunksDoNotMatter | e2e/lib/integrations.ts:215-263 | Every way to cut a stream into chunks, also between CR and LF, gives the same replies, messages and state as one chunk |
| Smtp.LinesAreHandled | e2e/lib/integrations.ts:218-221 | Lines come out of the stream as they went in |
| Smtp.DataRoundTrip | e2e/lib/integrations.ts:222-232 | Dot-stuffed lines and a lone dot are stored as the text of the original lines without its last line end, however they are cut |
| Smtp.StoredLinesComeBack | e2e/lib/integrations.ts:225 | Cutting the stored text at its line ends gives back the lines of the message |
| Smtp.UnstuffsAsRfcIff | e2e/lib/integrations.ts:230 | The sink unstuffs as RFC 5321 asks exactly for lines that do not start with one single dot |
| Smtp.RecipientIntrudes | e2e/lib/integrations.ts:224-244 | A recipient named after the final dot joins the message just stored |
| Smtp.ListIsSettledIff | e2e/lib/integrations.ts:239-251 | No further input can change a recipient list if and only if it is no longer the current one |
| Smtp.OneReplyEach | e2e/lib/integrations.ts:222-262 | Up to QUIT each command and each final dot gets exactly one reply, in order, and lines of a message get none; after QUIT nothing is sent |
| Smtp.CommandCode | e2e/lib/integrations.ts:234-261 | The code each command is answered with: 354 for DATA, 221 for QUIT, 502 for an unknown word, 250 for the others |
| Smtp.DataCode | e2e/lib/integrations.ts:222-232 | The final dot is answered with 250, the other lines of a message with nothing |
| Smtp.TransactionIsAnswered | e2e/lib/integrations.ts:215-263 | A whole transaction is answered with 250 for the sender, 250 for each recipient, 354 and 250, however its stream is cut |
| Smtp.OnlyAnswered | e2e/lib/integrations.ts:235-261 | EHLO alone lists extensions, and EHLO, HELO, NOOP and unknown words change nothing but the replies |
| Smtp.ResetForgets | e2e/lib/integrations.ts:246-249 | RSET forgets the sender and starts a new recipient list; what was stored stays |
| Smtp.QuitKeepsMail | e2e/lib/integrations.ts:252-254 | QUIT is answered with 221; whatever comes after it is unanswered and takes nothing stored away |
| Smtp.GreetingComesFirst | e2e/lib/integrations.ts:215 | The first reply of every connection is 220 |
| Smtp.AngledMeaning | e2e/lib/integrations.ts:236 | An address is what stands between the first opening bracket and the next closing one, or nothing if there is none |
| Smtp.VerbIgnoresCase | e2e/lib/integrations.ts:234 | Lower-case letters in a command do not matter |
| Smtp.TransactionIsStored | e2e/lib/integrations.ts:207-263 | A whole transaction adds one message with its sender, recipients and lines and changes no earlier message or list |
| Smtp.MailIsStored | e2e/lib/integrations.ts:207-263 | A client that names sender and recipients in angle brackets and stuffs its lines has exactly these stored, however its stream is cut |
| QuotedPrintable.Decode | e2e/lib/integrations.ts:129-141 | The loop computes the decoding function |
| QuotedPrintable.AnyEncodingComesBack | e2e/lib/integrations.ts:129-141 | Any sequence of literal and escaped units with soft breaks between them decodes to the bytes the units mean |
| QuotedPrintable.RoundTrip | e2e/lib/integrations.ts:129-141 | Every byte string comes back from every choice of escapes and line breaks |
| QuotedPrintable.WholeCharactersIff | e2e/lib/integrations.ts:132-138 | On every text: the decoder does as one that takes whole characters if and only if the text stays in the basic plane; else it yields more bytes |
| QuotedPrintable.PlainTextIsLiteral | e2e/lib/integrations.ts:132-138 | Taking whole characters, text in which no equals sign starts an escape or a soft break comes out as bytes that section 3 of RFC 3629 reads as its own code points |
| QuotedPrintable.PlainTextIsRead | e2e/lib/integrations.ts:132-138 | The program's bytes for such text, lone equals signs included, read as its own code points, and as two replacement characters outside the basic plane |
| QuotedPrintable.DigitsInOrder | e2e/lib/integrations.ts:133-135 | A hex digit, upper or lower case, counts its place among the sixteen |
| QuotedPrintable.TwoDigits | e2e/lib/integrations.ts:133-135 | An escape is 16 times its first digit and its second |
| Multipart.Walk | e2e/lib/integrations.ts:172-195 | The recursive walk adds to what was collected what the walk function collects; it ends as every part is shorter |
| Multipart.WalkUndoesWriting | e2e/lib/integrations.ts:172-195 | Walking a written tree of parts gives every type in order and every text, at any depth |
| Multipart.ParsingUndoesWriting | e2e/lib/integrations.ts:152-197 | The same for a whole message, cut at the first blank line |
| Multipart.Split | e2e/lib/integrations.ts:181 | Every part behind a delimiter is shorter than the body by the delimiter |
| CameraShim.Device.FetchChunk | e2e/lib/camera.ts:394-400 | One promise for each frame of the chunk, one request more in flight |
| CameraShim.Device.FrameOf | e2e/lib/camera.ts:431-434 | The frame is in the table afterwards; its chunk is fetched if it was not |
| CameraShim.Device.PrefetchNext | e2e/lib/camera.ts:435-442 | The loop over the next frames stops at two requests in flight |
| CameraShim.Device.EvictOutside | e2e/lib/camera.ts:445-453 | The loop over the table drops exactly the chunks outside the window |
| CameraShim.Device.EndShow | e2e/lib/camera.ts:466-472 | The frame is drawn only if it came, the camera runs and it is later than the one shown |
| CameraShim.Device.OnTick | e2e/lib/camera.ts:473-492 | A tick shows the due frame once, then evicts, then prefetches |
| CameraShim.Device.BeginStart | e2e/lib/camera.ts:507-510 | The warm-up asks for the first two chunks or all frames |
| CameraShim.Device.EndStart | e2e/lib/camera.ts:511-518 | After the warm-up the clock starts, frame 0 is on the canvas and the first tick follows |
| CameraShim.Device.Stop | e2e/lib/camera.ts:519-526 | Stopping the last track stops the camera and empties the table |
| CameraShim.Device.ChunkArrives | e2e/lib/camera.ts:425-429 | One request less in flight, then prefetching |
| CameraShim.FirstIndexIsEnough | e2e/lib/camera.ts:439-440 | In every sound state a frame is loaded if and only if the first frame of its chunk is |
| CameraShim.FetchKeeps | e2e/lib/camera.ts:394-400 | Fetching a missing chunk replaces no loaded frame and keeps chunks whole |
| CameraShim.PrefetchBounded | e2e/lib/camera.ts:438 | Prefetching never brings more than two requests in flight |
| CameraShim.NextFramesAreLoaded | e2e/lib/camera.ts:435-442 | After prefetching each of the next frames is loaded or two requests are in flight |
| CameraShim.EvictKeeps | e2e/lib/camera.ts:445-453 | What stays is exactly what is in the window or in the chunk of the frame on the canvas |
| CameraShim.WindowStays | e2e/lib/camera.ts:445-448 | The frame due now and the next ones are not evicted |
| CameraShim.EveryRunKeeps | e2e/lib/camera.ts:394-526 | In every run of ticks, arrivals, shows, openings and stops: chunks whole, inflight counts the requests, the shown index is the shown number modulo the frames |
| CameraShim.ReachableIsSound | e2e/lib/camera.ts:394-526 | So every state that can be reached from the start is sound |
| CameraShim.CanvasOnlyAdvances | e2e/lib/camera.ts:466-472 | While the camera runs only a resumed show changes the canvas, and only to a later frame |
| CameraShim.ResumeShows | e2e/lib/camera.ts:465-472 | A show whose frame came puts it on the canvas unless a later one is there; one that failed changes nothing |
| CameraShim.CanvasShowsLatest | e2e/lib/camera.ts:465-472 | While the camera stays on, the shown number is the largest of what was shown and the loaded shows that resumed |
| CameraShim.OpeningShowsLatest | e2e/lib/camera.ts:465-518 | So after an opening the canvas shows frame 0 or the latest frame that came |
| CameraShim.TickShowsDueFrame | e2e/lib/camera.ts:482-488 | A tick for a new frame asks for it and leaves a show under way for it; otherwise it starts none |
| CameraShim.TickLoadsAhead | e2e/lib/camera.ts:473-492 | After a tick each of the next frames is loaded or two requests are in flight |
| CameraShim.AnswerLoadsAhead | e2e/lib/camera.ts:426-429 | So it is after an answer |
| CameraShim.WarmUpWaits | e2e/lib/camera.ts:507-510 | The warm-up waits for the first two chunks, or for all frames if there are fewer |
| CameraShim.FailedWarmUpIsNotRetried | e2e/lib/camera.ts:431-512 | After a failed warm-up the next opening asks for nothing and waits for the same answers |
| CameraShim.OpeningAdvances | e2e/lib/camera.ts:466-492 | While the camera stays on, whichever tracks stop, the shown number never falls, and without a left-over show it is never ahead of the due frame |
| CameraShim.StaysOnIff | e2e/lib/camera.ts:519-526 | Of all events only the stop of the last track turns the camera off |
| CameraShim.AheadIffLeftOver | e2e/lib/camera.ts:466-472 | A step puts the canvas ahead of the clock if and only if a show for a frame not yet due resumes, and that show is from an earlier opening |
| CameraShim.FrozenWhileAhead | e2e/lib/camera.ts:466-472 | Once ahead, the canvas stands still until the clock has caught up |
| CameraShim.LeftOverShowOvertakes | e2e/lib/camera.ts:466-526 | For every chunk size and number of frames to prefetch, once the video is longer than both: a run from the start that ends ahead of the clock |
| CameraShim.VideoIsOvertaken | e2e/lib/camera.ts:40 | So with the 15 frames that the shim prefetches in video mode, for every chunk size |
| JpegCache.Cache.Jpeg | e2e/lib/camera.ts:137-163 | A hit is renewed, a pending encode shared, else an encode begins |
| JpegCache.Cache.OnEncoded | e2e/lib/camera.ts:150-157 | The new entry goes in and entries go from the front while there are too many bytes |
| JpegCache.Cache.OnSettled | e2e/lib/camera.ts:160 | Once the promise has settled, its frame is no longer pending |
| JpegCache.TrimmedMeaning | e2e/lib/camera.ts:152-156 | What is dropped is the shortest front part that makes the rest fit |
| JpegCache.EveryRunKeeps | e2e/lib/camera.ts:58-61 | In every run the byte counter is the sum of the cached lengths and within the limit, the cache is in the order of last use, encodes are shared |
| JpegCache.ReachableIsBounded | e2e/lib/camera.ts:58-61 | From the empty cache with its limit of 96 MiB, keys stay distinct and the bytes bounded |
| JpegCache.NothingGoesWhileItFits | e2e/lib/camera.ts:150-157 | In every reachable state: a new entry that fits into the 96 MiB goes behind the others, which all stay |
| JpegCache.FailureIsRetried | e2e/lib/camera.ts:145-161 | A failed encode leaves the cache alone, and once it has settled the frame is encoded anew when asked for |
| JpegCache.OneEncodeForEachFrame | e2e/lib/camera.ts:145-161 | Two encodes under way are for different frames |
| JpegCache.CacheIsTransparent | e2e/lib/camera.ts:137-163 | The answer is the JPEG of frame i modulo the length, for every integer i, as without a cache |
| JpegCache.JobsStay | e2e/lib/camera.ts:145-161 | A promise keeps its meaning in every later run |
| JpegCache.EvictsLeastRecent | e2e/lib/camera.ts:152-156 | Each dropped frame was last used before each kept one, and no more go than must |
| Suppression.IouIsSymmetric | tools/recognizer/common.py:140-145 | The overlap does not depend on the order of the boxes |
| Suppression.IouIsAShare | tools/recognizer/common.py:140-145 | It lies between 0 and 1 and is 0 exactly if the boxes share no area |
| Suppression.IouOfSelf | tools/recognizer/common.py:140-145 | A box overlaps itself wholly |
| Suppression.CommonOrDisjoint | tools/recognizer/common.py:141-143 | Two boxes share either no point or exactly the points of a box |
| Suppression.OverlapIsTheShare | tools/recognizer/common.py:140-145 | The overlap times the area that each box covers alone and both cover together is the area of the box of their common points |
| Suppression.NoOverlapIfDisjoint | tools/recognizer/common.py:140-145 | Boxes without a common point have overlap 0 |
| Suppression.RankedIsStable | tools/recognizer/common.py:189 | Candidates are ranked by falling score and equal scores keep their order |
| Suppression.RankedIsPermutation | tools/recognizer/common.py:189 | Ranking loses and adds nothing |
| Suppression.CandidatesAreTheBest | tools/recognizer/common.py:189-191 | The candidates are the 2000 detections of the highest scores, or all if there are fewer |
| Suppression.Suppress | tools/recognizer/common.py:189-193 | The loop over the first 2000 candidates computes the greedy choice |
| Suppression.GreedyIsBalanced | tools/recognizer/common.py:190-193 | Each candidate is kept if and only if no kept one before it overlaps it too much |
| Suppression.BalancedIsGreedy | tools/recognizer/common.py:190-193 | No other choice of candidates has that property |
| Suppression.KeptOverlapLittle | tools/recognizer/common.py:190-193 | Kept boxes overlap pairwise by at most the threshold |
| Suppression.DroppedForABetter | tools/recognizer/common.py:190-193 | A dropped candidate overlaps too much with a kept one of at least its score |
| Suppression.DetectionIsIdempotent | tools/recognizer/common.py:189-193 | Ranking and suppressing what was kept keeps all of it |
| Alignment.ExcessCost | tools/recognizer/common.py:207-218 | Any similarity costs an explicit sum of squares more than the estimate |
| Alignment.EstimateIsTheMinimum | tools/recognizer/common.py:207-218 | No similarity has a smaller sum of squared errors, and only the estimate has as small a one |
| Alignment.DegenerateIffTight | tools/recognizer/common.py:207-218 | There is no estimate if and only if the squared distances of the source points to some point sum to less than 1e-12 |
| Alignment.InverseUndoes | tools/recognizer/common.py:226-229 | The warp's map and the forward map undo each other |
| Clahe.HistogramCountsAll | tools/recognizer/prep.py:71-72 | Every pixel is counted in one bin |
| Clahe.HistogramAt | tools/recognizer/prep.py:71-72 | Each of the 64 bins counts the pixels from four times its number up to four more |
| Clahe.ClippingConserves | tools/recognizer/prep.py:75-76 | Clipping and spreading keep the total |
| Clahe.ClippedMeaning | tools/recognizer/prep.py:75-76 | Each bin keeps its count or the limit, whichever is less, all get the same share, and nothing is lost |
| Clahe.LimitMeaning | tools/recognizer/prep.py:74 | The limit is the clip factor times an even share of the pixels, and at least 1 |
| Clahe.TileKeepsItsPixels | tools/recognizer/prep.py:71-76 | The clipped histogram of a tile still sums to its number of pixels |
| Clahe.TileMapRises | tools/recognizer/prep.py:77 | A tile's map never falls, stays within 0 and 255 and ends at 255 unless the tile is empty |
| Clahe.TileMapMeaning | tools/recognizer/prep.py:71-77 | The map of a tile climbs at each bin by the clipped count of its pixels there and one share, scaled so that all pixels are 255 |
| Clahe.TilesPartition | tools/recognizer/prep.py:66-70 | Every row and column lies in exactly one tile, however the size divides |
| Clahe.EdgeIsAShare | tools/recognizer/prep.py:66-70 | A tile starts at its share of the size, rounded down |
| Clahe.TileHolds | tools/recognizer/prep.py:70-71 | A tile lists each of its pixels at its row-major place |
| Clahe.TileHasSize | tools/recognizer/prep.py:70-73 | A tile lists as many pixels as its rows times its columns |
| Clahe.TileMaps | tools/recognizer/prep.py:67-77 | The nested loops store the map of each tile at its row-major place |
| Clahe.WeightsAreWithin | tools/recognizer/prep.py:79-82 | Interpolation indices stay inside the grid, the weight is in [0, 1) and both give the place back |
| Clahe.PlaceMeaning | tools/recognizer/prep.py:79 | The place of a pixel counts tiles from the centre of the first one and stays between the centres of the first and the last |
| Clahe.BlendIsBetween | tools/recognizer/prep.py:86-88 | The interpolated value lies between the four values it mixes |
| Clahe.EqualisedIsATentSum | tools/recognizer/prep.py:79-88 | Looking up the four nearest tiles gives what counting every tile of the grid gives, each by one minus its distance in both directions |
| Clahe.Equalised | tools/recognizer/prep.py:79-88 | Every interpolated value is between 0 and 255 |
| RateComparison.StatisticIsBounded | packages/shared/src/governance.ts:161-176 | The squared statistic is at most the number of all trials |
| RateComparison.StatisticCleared | packages/shared/src/governance.ts:167-171 | The statistic in terms of the counts alone |
| RateComparison.OutcomeInCounts | packages/shared/src/governance.ts:161-176 | The difference and the squared statistic that a comparison reports, in terms of the counts alone |
| RateComparison.DriftIff | packages/shared/src/governance.ts:174 | There is a drift if and only if both windows have enough trials, trials with and without the event exist, and the statistic and the difference reach their thresholds, all in counts |
| RateComparison.DefaultDriftIff | packages/shared/src/governance.ts:162-174 | The same for the default options as inequalities between whole numbers |
| RateComparison.NoStatisticIff | packages/shared/src/governance.ts:165-173 | There is no statistic exactly without data or when no trial or every trial had the event, and then the rates are equal |
| RateComparison.SwapNegates | packages/shared/src/governance.ts:161-176 | Exchanging the windows turns the difference round and keeps the statistic's size and the verdict |
| RateComparison.ComplementNegates | packages/shared/src/governance.ts:161-176 | Counting the other outcome does the same |
| RateComparison.MoreOfTheSame | packages/shared/src/governance.ts:161-176 | The same rates on m times the trials: m times the squared statistic, and a drift stays one |
| StorageLocations.OverlapIsSymmetric | apps/server/src/config.ts:279-287 | Overlap does not depend on the order of the two locations |
| StorageLocations.KeyStaysBelow | apps/server/src/lib/storage.ts:20-35 | A valid key resolves to a path below its directory, under its own name |
| StorageLocations.ObjectIsInItsBucket | apps/server/src/lib/storage.ts:105-108 | In a bucket a blob has its own name behind the prefix, at the endpoint of the backend |
| StorageLocations.LongestKey | apps/server/src/lib/storage.ts:20-35 | A key of letters alone is valid up to 512 characters |
| StorageLocations.FirstCharacter | apps/server/src/lib/storage.ts:20-35 | A key starts with a letter or a digit |
| StorageLocations.LaterCharacter | apps/server/src/lib/storage.ts:20-35 | Dots, underscores and hyphens may follow, and nothing else |
| StorageLocations.SeparateIffNoMeeting | apps/server/src/config.ts:279-287 | With directories written as they resolve: what does not overlap is separate; and two locations can address the same file or object if and only if they are the same place or one extends the other by part of a valid key |
| StorageLocations.FilesSeparateIffResolved | apps/server/src/lib/storage.ts:20-35 | In general two directories share a file exactly if, once resolved, they are the same or one extends the other by part of a valid key |
| StorageLocations.ResolvingIsIdempotent | apps/server/src/lib/storage.ts:28-30 | A resolved directory resolves to itself |
| StorageLocations.TrailingSeparatorIsMissed | apps/server/src/config.ts:280 | A directory with a trailing separator and one below it pass the check, and share files if and only if the name between them can start a valid key |
| StorageLocations.VariablesAreDistinct | apps/server/src/config.ts:141-142 | Over all valid names, a variable configures one setting of one location |
| StorageLocations.NameIsWords | apps/server/src/config.ts:141 | A valid name has up to 32 characters, in words of letters and digits with one hyphen between them, a letter first |
| StorageLocations.NameInVariable | apps/server/src/config.ts:263-265 | A variable has the capitals of the letters, the same digits, and underscores for the hyphens |
| StorageLocations.EnvNameIsInjective | apps/server/src/config.ts:263-265 | Different valid names have different variable names |
| StorageLocations.CheckNames | apps/server/src/config.ts:323-330 | Names are accepted if and only if all are valid, none is the default one in any case and no two are equal; else the first bad one is named with what is wrong with it |
| StorageLocations.CheckOverlaps | apps/server/src/config.ts:383-390 | The nested loops report the first overlapping pair, or none if and only if there is none |
| StorageLocations.AcceptedLocationsAreSeparate | apps/server/src/config.ts:383-390 | Accepted locations written as they resolve never share a file or object |

## Left out

- Text lengths: zod and JSON Schema count UTF-16 units and code points; the model counts characters, so it does not show where these differ.
- String formats, patterns, case changes, refinements and transforms are functions and predicates of a context that zod and JSON Schema share; a regular expression is known by its source, its flags do not reach the schema.
- Coercion is not a kind of its own: it behaves like a preprocess step, which the exact and the sound class exclude, as they do `catch`.
- Lazy schemas are uses of registered names, with a rank that bounds how often names are followed without consuming input; a lazy schema that is not registered and never ends is not modelled.
- Key order, undefined-valued output keys, the reference prefix, empty names and two schemas under one component name.
- Checks before `trim`, and bounds mixed with formats, patterns or steps: covered by the soundness and exactness theorems under their conditions, without an exact condition of their own.
- A default or preprocess step on a recursion path (an object whose `children` are an array of itself with default `[]`): the rank that shows that parsing ends does not exist for it, so no context holds it, though zod parses it and the converter converts it.
- Paths, operations, headers and all texts of the API document.
- Incident titles, and locale comparison of ids: any total order on ids is a parameter.
- Labels of exceptions and accommodations, and the records that decide which accommodations apply at a time.
- Accommodations.ExtraTimeAdds: percentages are rational numbers and rounding is that of the program on exact values; binary floating point is not modelled.
- Policy sections that no accommodation touches are kept as opaque settings; their schema bounds are not restated.
- SMTP verbs are compared after upper-casing ASCII letters only; letters that upper-case into ASCII from outside it are not modelled. The time of a message is left out.
- Multipart.WalkUndoesWriting: asks that a boundary delimiter occur nowhere in a part, while section 5.1.1 of RFC 2046 forbids it only at the start of a line: the program cuts in the middle of a line too. The program also leaves the line end before a delimiter with the part in front of it, which that section gives to the delimiter; the result states the texts with it.
- Base64 bodies, encoded words in headers and the reading of header fields: the multipart walk takes the reader of a header block and the decoder of a body as parameters.
- The final conversion of decoded bytes to text.
- Images themselves, drawing, closing of images and capture by the browser; frame statistics; constraints of a camera request.
- CameraShim.EveryRunKeeps: the clock is a frame number that an event brings along, so timer lateness and rounding of the frame rate are not modelled; a show may resume without its image at any time, which allows more runs than the browser does.
- A frame file that cannot be read, and callers of a failed encode.
- Floating point in the recognizer tools: all arithmetic is over the reals. The second ranking of faces by area and score, the decoding of network outputs and the gain that applies an equalised brightness.
- RateComparison.StatisticIsBounded: states the squared statistic before rounding, as the sign of z is the sign of the difference and the root adds nothing.
- Driver-specific settings, labels and warnings of storage locations; other spellings of one endpoint; symbolic links.
- The session state machine, the identity evidence engine, HTTP, databases and user interfaces.
