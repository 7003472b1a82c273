# Wi-Mall operator scripts: a verified model

The repository's `scripts/` directory holds the commands an operator runs against the marketplace's
database, its n8n workflow, Meta's Graph API and its own documentation. About a dozen of them contain real
algorithms or protocols around their I/O. This project models those parts in Dafny, one module a script,
and proves what they are for. The database, the Graph API, n8n and the file system appear as abstract
state with explicit steps and arbitrary failures.

| module | what it models |
|---|---|
| `CanonicalJson`, `JsonReading` | `stable`, the serialiser two workflow versions are compared by, and a JSON reader that reads it back |
| `PathArgument`, `EncodedUri` | model-written values on their way into a URL path, and their encoding character by character |
| `Reconciler` | the diff-and-apply engine of the workflow generator, and its batches |
| `RequestBody` | the request bodies and string literals the generator writes |
| `FlowChecker`, `FlowComponents`, `FlowValidation` | the routing, component and whole check of a form definition |
| `FlowDrafts` | creating or reusing a form's draft on the business account |
| `TemplateCompiler`, `TemplatePadding` | keyed copy into positional message templates, and their edges |
| `TextTidy`, `Respacing`, `SentinelPattern` | the white-space passes, what they come to place by place, and the sentinel pattern by character codes |
| `UniqueGuard`, `EmailIndexSwap`, `ReviewIndexSwap` | build-then-drop index swaps under concurrent writers |
| `MigrationStatus`, `MigrationRunner` | what the ledger says of a migration, and the ledger over any history of runs |
| `TemplateSubmission` | creating and editing templates under whatever the Graph API answers |
| `AppRelease`, `VersionOrder` | publishing and promoting app builds, and the build-tools order |
| `RefundConversion`, `RefundInterleaving` | legacy delivery-fee refunds into refund requests, run by run and order by order |
| `Sampler` | the fair round-robin product sample |
| `ObjectFinder` | innermost-brace search and offset edits in documentation pages |
| `EnvelopeFix`, `EnvelopeLines`, `EnvelopePlace` | in-place line splicing with shifting fence indices, what is done to a line, and where inserted members land |
| `EnvelopeKeys`, `EnvelopeTwice`, `EnvelopeBreaks` | the keys of a rewritten block, a second pass over it, and blocks that come out wrong |
| `RouteDirs` | route-group resolution over a directory tree |
| `JsText`, `Options`, `Collections` | white space and JSON keys in text, optional values, sets and multisets |

Scripts that change things step by step are methods, and classes where they own state (`Runner`,
`Conversion`, `Releases`, `Submission`, `Row`, `PropertyCheck`, `Account`); each is proved against a function of what it was given, and
the theorems are about that function. Protocols with concurrent writers are transition relations over
states.

Several claims made in comments turn out to hold only under a condition. The code is modelled as it is, and
the exact condition is proved:

- An even batch size does not keep a node and its connection in one call: they are split exactly when the
  addition sits at an index congruent to 99 modulo 100, which an odd number of removals and updates brings
  about (`PairSplitExactly`, `AddIndexParity`, `EvenBatchesSplit`).
- A path template that writes a percent sign of its own in front of a parameter can be walked out of
  (`PercentLiteralsEscape`). Without one, confinement holds exactly when the template's literals are safe
  (`UrlForConfines`); for every rooted template it holds exactly when, besides, nine short pieces such as
  `2e` complete no dot segment (`ConfinedExactly`).
- The form check rejects cycles of two only; routes all end exactly when there is no cycle of any length
  (`ThreeCyclesPass`, `WalksEndExactlyWhenAcyclic`).
- The draft search reads one page of a hundred forms: a second standing form of a name can come about exactly when
  one stands on an account that does not fit that page (`SecondFormExactly`).
- The customer a tool call is made for is the flow's, whatever the model writes, exactly when no mapped argument is
  called `identity` (`IdentityExactly`).
- The sentinel pattern does not see keys with digits or underscores, which the key scanner accepts
  (`PatternSeesLettersOnly`), and a `«word»` the copy itself spells out is taken for a value, reported and stripped;
  guillemets of any other use are fine (`CompiledAsMeantExactly`, `StripsAsMeantExactly`).
- The review swap trusts index names: the one-live-review rule holds throughout exactly when a real index
  protects it at the start (`OneLiveReviewExactly`).
- `--only` keeps the migration order exactly when everything before the named migration is applied
  (`OnlyKeepsOrderExactly`).
- The version gate compares with the published build only: after a rollback it can admit a build that phones
  on the withdrawn one cannot take (`RollbackLetsALowerBuildIn`). It protects every phone exactly when no live
  release is above the published one, or the live codes above it leave no number free up to the highest
  (`GateProtectsExactly`). A promotion cut off between its two writes usually leaves no published build
  (`InterruptedPromotion`).
- A refund request whose link to its rows is lost can be followed by a second request for the same rows: every
  future that writes its links asks once exactly when the run lost the link of no order it could raise
  (`AskedOnceExactly`). A row settled by hand between the selection and its order's turn is still asked for: a turn
  leaves every request asking for just what its rows are owed exactly when it does not ask for settled money beside
  money still owed (`EventBalancesExactly`, `SettledMeanwhileIsAskedFor`).
- The request id and the added pair go behind a comma even where their line opens a bracket, and the request id
  ends in one even behind the last member of its object; a block's commas stay right exactly when neither happens
  (`CommasStayRightExactly`, `OpeningBracketBreaks`). The pair lands in the object of the line it is put behind
  exactly when the rest of that line is level (`PairLandsInsideExactly`, `ClosedObjectMissesPair`). A second pass
  changes nothing exactly when the first did not put the request id where the pair belongs
  (`SecondPassExactly`, `OneLineTakesTwoPasses`).
- A run of the workflow generator cut off between two calls and run again attaches every tool exactly when the cut
  parted no node from its connection (`ResumedAttachesExactly`, `ResumedLeavesUnattached`).
- A second submission run sends nothing exactly when the first one's limit cut nothing off
  (`NothingLeftToSendExactly`).

`dafny verify dfyconfig.toml` checks the whole project.

## Model

| member | source | states |
|---|---|---|
| CanonicalJson.StableIsCanonical | scripts/gen-mcp-workflow.ts:407-414 | two JSON values serialise equally exactly when they are the same value up to object key order, dropped undefined members, and undefined read as null at the top and in arrays |
| CanonicalJson.StablePrefix | scripts/gen-mcp-workflow.ts:407-414 | the printed form of a value can be told from whatever follows it, so printing is injective through every nesting |
| CanonicalJson.SortSorts | scripts/gen-mcp-workflow.ts:410-412 | the member sort leaves an object's members in ascending key order |
| CanonicalJson.DenotationDecides | scripts/gen-mcp-workflow.ts:402-406 | values that denote the same have the same canonical form, whatever order storage left their keys in |
| JsonReading.StableReadsBack | scripts/gen-mcp-workflow.ts:402-414 | a JSON reader (RFC 8259) reads the whole printed text of any value and finds that value: its members, in order of their keys, those undefined left out |
| JsonReading.QuoteReads | scripts/gen-mcp-workflow.ts:413 | a printed string reads back as the string, up to its own closing quote |
| JsonReading.KeyLessExactly | scripts/gen-mcp-workflow.ts:410 | keys are ordered by their UTF-16 code units, the first difference deciding, a prefix first |
| PathArgument.DecodeEncode | scripts/gen-mcp-workflow.ts:273-275 | percent-decoding undoes the encoder on every string |
| EncodedUri.CharacterExactly | scripts/gen-mcp-workflow.ts:273-275 | letters, digits and nine marks stand as they are; every other character becomes its UTF-8 octets, each a percent sign and two upper-case digits |
| EncodedUri.EncodesEach | scripts/gen-mcp-workflow.ts:273-275 | a text is encoded character by character |
| PathArgument.ArgumentArrives | scripts/gen-mcp-workflow.ts:273-275 | the route receives the value without the white space at its two ends, or `_` when that is empty or all dots |
| PathArgument.ReadsBack | scripts/gen-mcp-workflow.ts:279-280 | reading a path string loses, moves and adds no character: its tokens, written out again with braces round the names, are the string |
| PathArgument.ReadsAsWrittenExactly | scripts/gen-mcp-workflow.ts:279-280 | tokens written out are read as the same tokens exactly when every name is a non-empty word and no run of literals spells a word in braces |
| PathArgument.FillExactly | scripts/gen-mcp-workflow.ts:278-282 | in the requested path every literal stands as it is and every parameter as its value, each in its place |
| PathArgument.SegmentsOfFill | scripts/gen-mcp-workflow.ts:278-282 | a filled path splits into exactly the template's segments, filled one by one |
| PathArgument.NoDotSegment | scripts/gen-mcp-workflow.ts:273-282 | no filled segment is a dot segment, `%2e` forms included |
| PathArgument.PathStateKeeps | scripts/gen-mcp-workflow.ts:278-282 | the URL Standard's path state leaves a path without dot segments as it is |
| PathArgument.RemoveDotsKeeps | scripts/gen-mcp-workflow.ts:278-282 | remove_dot_segments of RFC 3986, section 5.2.4, leaves such a path as it is |
| PathArgument.SafeTemplatesConfine | scripts/gen-mcp-workflow.ts:273-282 | through a safe template no model-written values change which route is called |
| PathArgument.ConfinedExactlyWhenSafe | scripts/gen-mcp-workflow.ts:273-282 | a template confines all values exactly when its literals hold no URL syntax and no dot segment |
| PathArgument.UrlForConfines | scripts/gen-mcp-workflow.ts:278-282 | the same for the path strings of the catalogue, read as `ReadsBack` and `ReadsAsWrittenExactly` say |
| PathArgument.ConfinedExactly | scripts/gen-mcp-workflow.ts:273-282 | every rooted template, percent signs or not, confines all values exactly when it writes no URL syntax and nine pieces complete no dot segment of it |
| PathArgument.UrlForConfinesExactly | scripts/gen-mcp-workflow.ts:278-282 | the same for every rooted path string |
| PathArgument.PieceOfDot | scripts/gen-mcp-workflow.ts:273-275 | an encoded value that stands inside a dot segment is one of those nine pieces |
| PathArgument.PercentLiteralsEscape | scripts/gen-mcp-workflow.ts:278-282 | a template that writes `%2` before a parameter can lose its segment |
| Reconciler.RenderOperations | scripts/gen-mcp-workflow.ts:445-496 | emits the removals, then each node's operations, and refuses exactly where the last node of an emitted name is of another type than the HTTP tool |
| Reconciler.OperationsReconcile | scripts/gen-mcp-workflow.ts:416-496 | every emitted operation is legal when applied; afterwards the generated nodes are exactly the emitted tools, new ones attached and found ones attached as before; of the other nodes exactly the HTTP tool nodes with a catalogue name are gone, and every one that stays has the same state and attachment |
| Reconciler.SecondRunEmitsNothing | scripts/gen-mcp-workflow.ts:442-443 | over a reconciled workflow, read back in any key order, no operation is emitted |
| Reconciler.SelectedAreModelFacing | scripts/gen-mcp-workflow.ts:102-111 | a tool is selected exactly when it is in the catalogue and neither its kind nor its name withholds it from a model |
| Reconciler.FlowOnlyNeverHeld | scripts/gen-mcp-workflow.ts:102-111 | after a run no generated node carries a tool the model may not call |
| Reconciler.BatchOperations | scripts/gen-mcp-workflow.ts:498-516 | the batches are non-empty, at most a hundred long, and together the operations in order |
| Reconciler.BatchesApplyInOrder | scripts/gen-mcp-workflow.ts:501-508 | applying batch after batch reaches the state one call would |
| Reconciler.AddThenConnect | scripts/gen-mcp-workflow.ts:476-492 | an addition is followed at once by the connection that attaches it |
| Reconciler.PairSplitExactly | scripts/gen-mcp-workflow.ts:509-515 | a node and its connection are in two calls exactly when the addition is the last of a full hundred |
| Reconciler.AddIndexParity | scripts/gen-mcp-workflow.ts:509-515 | an addition sits at an odd index exactly when an odd number of removals and updates precede it |
| Reconciler.EvenBatchesSplit | scripts/gen-mcp-workflow.ts:509-515 | beside the agent, one left-over node and fifty new ones split a node from its connection |
| Reconciler.CutAttaches | scripts/gen-mcp-workflow.ts:498-508 | however far a run gets, at most the node it added last is without its connection |
| Reconciler.ResumedAttachesExactly | scripts/gen-mcp-workflow.ts:498-516 | a run cut off after some calls and run again attaches every emitted tool exactly when the cut parted no node from its connection |
| Reconciler.ResumedLeavesUnattached | scripts/gen-mcp-workflow.ts:498-516 | cut off behind their first hundred, those operations leave a node that the next run does not attach |
| RequestBody.LiteralReadsBack | scripts/gen-mcp-workflow.ts:216-219 | whatever a catalogue text holds, its literal ends at its own last quote and reads back as the words of the text with one space between each two |
| RequestBody.JsonExpression | scripts/gen-mcp-workflow.ts:293-302 | the entries are the identity, if asked for, and one for each argument that is not a paging one |
| RequestBody.SentExactly | scripts/gen-mcp-workflow.ts:284-302 | exactly the model-facing arguments are sent, each with the value supplied, an optional one only when truthy |
| RequestBody.NeverPages | scripts/gen-mcp-workflow.ts:113-124 | `page` and `limit` are never sent, whatever the catalogue maps and the model writes |
| RequestBody.IdentityExactly | scripts/gen-mcp-workflow.ts:136-153 | the identity sent is the flow's under all values exactly when no argument is called `identity` |
| FlowChecker.Neighbours | scripts/publish-whatsapp-flows.ts:196-200 | the neighbour map joins declared screens with routes taken both ways |
| FlowChecker.Reach | scripts/publish-whatsapp-flows.ts:201-210 | the worklist search ends, and reaches exactly the declared screens joined to the first |
| FlowChecker.OnwardExactly | scripts/publish-whatsapp-flows.ts:190-234 | where a screen goes on to is what the first route from it lists, nothing where there is none |
| FlowChecker.RoutingModelFaults | scripts/publish-whatsapp-flows.ts:190-234 | reports the connection, entry, backward-route, branch-count and screen faults, in that order |
| FlowChecker.ConnectedExactly | scripts/publish-whatsapp-flows.ts:183-212 | the connection fault is absent exactly when every two declared screens are joined, undeclared names in the model or not |
| FlowChecker.FaultlessExactly | scripts/publish-whatsapp-flows.ts:190-234 | no fault is reported exactly when every two declared screens are joined, some declared screen is no route's target, no two screens route to each other, there are at most ten branches, and each screen goes on or is terminal with a Footer and not called SUCCESS |
| FlowChecker.FaultsExactly | scripts/publish-whatsapp-flows.ts:190-234 | each fault is reported exactly when the definition deserves it: no entry screen, say, exactly when every declared id is among some route's targets |
| FlowChecker.AtMostElevenScreens | scripts/publish-whatsapp-flows.ts:183-222 | a faultless definition has at most eleven screens |
| FlowChecker.TreeGrows | scripts/publish-whatsapp-flows.ts:183-222 | connected screens need one fewer branches than there are screens |
| FlowChecker.StuckWalksEnd | scripts/publish-whatsapp-flows.ts:187-232 | a forward walk that cannot go on is at a terminal screen with a Footer |
| FlowChecker.EveryWalkReachesAnEnd | scripts/publish-whatsapp-flows.ts:187-232 | without cycles every forward walk extends to such an end |
| FlowChecker.WalksEndExactlyWhenAcyclic | scripts/publish-whatsapp-flows.ts:187 | walks are bounded exactly when the routes have no cycle of any length |
| FlowChecker.ThreeCyclesPass | scripts/publish-whatsapp-flows.ts:217-221 | a definition with a cycle of three has no fault |
| FlowComponents.PropertyCheck.Visit | scripts/publish-whatsapp-flows.ts:146-169 | the recursive visit appends the gaps of the value and everything below it, in its own order |
| FlowComponents.GapsExactly | scripts/publish-whatsapp-flows.ts:144-172 | a gap is reported exactly when the component at its address is of an unknown type or lacks a required property |
| FlowComponents.NoGapsExactly | scripts/publish-whatsapp-flows.ts:144-172 | nothing is reported exactly when every component the visit can get to, however deep, is complete |
| FlowComponents.GetExactly | scripts/publish-whatsapp-flows.ts:151-160 | a member is looked up by the first field of its key |
| FlowComponents.KindExactly | scripts/publish-whatsapp-flows.ts:153-154 | a component is an object whose first `type` member is a text, and that text is its type |
| FlowComponents.SubOfObject | scripts/publish-whatsapp-flows.ts:160-167 | below an object the visit goes to the followed members and, one by one, the cases |
| FlowValidation.MissingRequiredProperties | scripts/publish-whatsapp-flows.ts:144-172 | the gaps of all screens, screen by screen |
| FlowValidation.Validate | scripts/publish-whatsapp-flows.ts:309-347 | accepts the definitions exactly when every one is publishable |
| FlowValidation.NoComplaintsExactly | scripts/publish-whatsapp-flows.ts:313-344 | one definition draws no complaint exactly when its screens are routed, exemplified and complete, its routes go to other declared screens, one screen is terminal and its routing is sound |
| FlowValidation.PassesExactly | scripts/publish-whatsapp-flows.ts:313-344 | one definition passes exactly when it is publishable, said of its screens and routes themselves |
| FlowValidation.OutlineFaithful | scripts/publish-whatsapp-flows.ts:309-347 | the routing check sees the screens' own ids, ends, Footers and routes |
| FlowValidation.PublishableFormsEnd | scripts/publish-whatsapp-flows.ts:309-347 | through an accepted form without cycles every walk goes on to a terminal screen with a Footer |
| FlowDrafts.Account.DraftOrNewFlow | scripts/publish-whatsapp-flows.ts:506-541 | a shown live form of the name is answered with nothing and left alone; else the first draft of it shown is answered, or a new one is made and answered where the page shows none |
| FlowDrafts.LiveIsRefused | scripts/publish-whatsapp-flows.ts:502-518 | on an account that fits one page a live form is never superseded |
| FlowDrafts.OneFormOfEachName | scripts/publish-whatsapp-flows.ts:494-541 | on such an account no name ever has two standing forms, over any history and whatever calls are lost |
| FlowDrafts.SecondFormExactly | scripts/publish-whatsapp-flows.ts:507-510 | a second standing form of a name can come about exactly when one stands and the account does not fit one page |
| FlowDrafts.LiveStaysUnlessRetired | scripts/publish-whatsapp-flows.ts:502-541 | on any account, over any history, a form no longer a draft stays as it is until somebody retires it |
| TemplateCompiler.CompileRow | scripts/generate-whatsapp-templates.ts:203-252 | compiles each language's copy and collects the values no parameter carries; each body has the words of what was meant, all of them and in order, no white space at its ends or at the end of a line, no blank in front of punctuation and no two together |
| TemplateCompiler.SubstituteSeesTheCopy | scripts/generate-whatsapp-templates.ts:224-232 | on rendered text the pattern finds exactly the copy's values, whatever guillemets the copy writes, as long as it spells out no sentinel |
| TemplateCompiler.SeenExactlyWhenClean | scripts/generate-whatsapp-templates.ts:132-133 | rendered text is read as the copy it came from exactly when the keys are letters and the copy spells out no sentinel |
| SentinelPattern.SentinelAtExactly | scripts/generate-whatsapp-templates.ts:133 | the pattern matches exactly at letters between guillemets, `A` to `Z` and `a` to `z` by their codes |
| SentinelPattern.CleanExactly | scripts/generate-whatsapp-templates.ts:132-133 | a copy is clean exactly when its keys are such letters and none of its own characters stand as letters between guillemets |
| SentinelPattern.IndexOfExactly | scripts/generate-whatsapp-templates.ts:226-230 | a parameter's position is that of its first occurrence |
| TemplateCompiler.CompiledAsMeantExactly | scripts/generate-whatsapp-templates.ts:224-232 | under every parameter list a copy is compiled as meant exactly then |
| TemplateCompiler.SpeltOutIsTaken | scripts/generate-whatsapp-templates.ts:224-232 | a `«word»` the copy spells out is reported as a value not supplied |
| TemplateCompiler.UnsuppliedExactly | scripts/generate-whatsapp-templates.ts:224-232 | the reported values are exactly the copy's keys that no parameter carries alone |
| TemplateCompiler.PatternSeesLettersOnly | scripts/generate-whatsapp-templates.ts:126-133 | a key is replaced exactly when it is made of letters; a digit or underscore hides it |
| TemplateCompiler.CompiledIsTidyMarked | scripts/generate-whatsapp-templates.ts:234-284 | the compiled body is the marked message respaced, with keys turned into positions; `Respaced` says place by place what is left of each gap |
| TemplateCompiler.TidySpaceMap | scripts/generate-whatsapp-templates.ts:275-284 | tidying does not depend on what the values are |
| Respacing.TidyIsRespaced | scripts/generate-whatsapp-templates.ts:277-283 | the five replacements and the trim come to this: every token that is no white space stays, and each gap between two keeps just what the place-by-place reading leaves of it |
| Respacing.TidyKeepsWords | scripts/generate-whatsapp-templates.ts:277-283 | the tokens that are no white space are those of the input, all of them and in order |
| Respacing.TidyIsNeat | scripts/generate-whatsapp-templates.ts:277-283 | neither an end of the text nor the end of a line is white space, no blank stands in front of punctuation, and no two stand together |
| JsText.SpaceExactly | scripts/generate-whatsapp-templates.ts:282-283 | white space is what ECMA-262 lists |
| TemplateCompiler.StripsAsMeantExactly | scripts/generate-whatsapp-templates.ts:275-277 | stripping removes the values not supplied and nothing else, under every parameter list, exactly when the copy spells out no sentinel |
| TemplateCompiler.CompilationPreservesMeaning | scripts/generate-whatsapp-templates.ts:194-284 | for every clean copy, parameter list and context, the filled template says what the marked copy, without the values no parameter carries, says when rendered directly and respaced |
| TemplateCompiler.AnyTextMeansWhatItIsReadAs | scripts/generate-whatsapp-templates.ts:194-284 | for any subject, body and parameters at all, the same of what the pattern reads them as |
| TemplateCompiler.FullySuppliedCopyIsKept | scripts/generate-whatsapp-templates.ts:194-284 | with every value supplied and no stray white space the filled template is the rendered copy itself |
| TemplatePadding.PadRow | scripts/generate-whatsapp-templates.ts:389-415 | pads each language of a row in place and reports which edges needed it |
| TemplatePadding.PadEdges | scripts/generate-whatsapp-templates.ts:388-417 | pads every row in place and lists, in row order, one line for each row that needed padding in some language |
| TemplatePadding.StartsExactly | scripts/generate-whatsapp-templates.ts:379-382 | a body starts on a parameter exactly when only white space, bold markers and opening quotes or brackets stand before one |
| TemplatePadding.EndsExactly | scripts/generate-whatsapp-templates.ts:379-383 | it ends on one exactly when only white space, bold markers, punctuation and closing quotes or brackets stand behind one |
| TemplatePadding.WordsAreGood | scripts/generate-whatsapp-templates.ts:318-377 | the static words open and close on text in every language |
| TemplatePadding.PaddedEdgesAreStatic | scripts/generate-whatsapp-templates.ts:379-412 | after a pass no body starts or ends on a parameter, bold markers aside |
| TemplatePadding.SentenceSurvives | scripts/generate-whatsapp-templates.ts:396-410 | the padded body is the derived sentence in one piece between the words of its language that were due, the lead inside the heading's bold span and the tail behind a blank line |
| TemplatePadding.PaddingIsIdempotent | scripts/generate-whatsapp-templates.ts:388-417 | a second pass changes nothing and reports nothing |
| EmailIndexSwap.InvStep | scripts/migrate-vendor-email-index.ts:138-192 | every step of the run and of any client keeps a guard in place |
| EmailIndexSwap.UniquenessNeverLapses | scripts/migrate-vendor-email-index.ts:138-192 | from one guard, no reachable state has two vendors with the same string email, whatever fails and whoever writes |
| EmailIndexSwap.RunExactly | scripts/migrate-vendor-email-index.ts:138-192 | whatever clients write, a finished run has built the target where none was found and dropped `email_1` where it stood as the plain index, as far as nothing failed; another `email_1` stays and counts as failed; a dry run changes no index |
| EmailIndexSwap.DoneReached | scripts/migrate-vendor-email-index.ts:163-192 | a finished run without a problem leaves no index called `email_1` |
| EmailIndexSwap.EmailLessVendorsAccepted | scripts/migrate-vendor-email-index.ts:138-192 | after such a run any number of vendors without an email is accepted |
| EmailIndexSwap.AcceptsExactly | scripts/migrate-vendor-email-index.ts:83-96 | what each index listed accepts: a unique one on the email alone refuses a second vendor with one, and without one where it is neither sparse nor partial |
| EmailIndexSwap.LegacyRefusesTheSecond | scripts/migrate-vendor-email-index.ts:83-96 | while the old index stands a second vendor without an email is refused |
| ReviewIndexSwap.InvThroughout | scripts/migrate-reviews-publish-all.ts:120-133 | every state of a run keeps the rule's protection |
| ReviewIndexSwap.SwapExactly | scripts/migrate-reviews-publish-all.ts:78-133 | at every stage the indexes are those found, with the new one beside them once it was built and without the old one once the swap is through; a dry run changes none |
| ReviewIndexSwap.UnprotectedLapses | scripts/migrate-reviews-publish-all.ts:78-133 | unprotected, some run ends with two live reviews of one subject by one author |
| ReviewIndexSwap.OneLiveReviewExactly | scripts/migrate-reviews-publish-all.ts:78-133 | the one-live-review rule holds in every run under all writers exactly when the collection is protected at the start |
| MigrationStatus.StatusExactly | src/core/database/schema-migration.model.ts:128-143 | with the rows in any order, a last attempt that failed on the current checksum makes it `failed`; otherwise the last success decides between `applied` and `changed` |
| MigrationStatus.NeverSucceeded | src/core/database/schema-migration.model.ts:134-138 | rows without a success make it `failed`, and only no rows at all `not_applied` |
| MigrationStatus.NeverRunNeedsApplying | src/core/database/schema-migration.model.ts:128-148 | a checksum that never ran to success needs applying, whatever else is in the ledger |
| MigrationStatus.AnyOrder | src/core/database/schema-migration.model.ts:126-131 | the order in which the rows are read does not matter |
| MigrationRunner.Runner.ApplyAll | scripts/migrate.ts:576-656 | the ledger grows by the rows of the pending queue, or of the first migration of the name given, and an unknown name writes nothing |
| MigrationRunner.PendingMeans | src/core/database/schema-migration.model.ts:126-148 | a migration is pending unless, of its rows in the environment, the last success carries its checksum and the last of all is no failure that does |
| MigrationRunner.QueueExactly | scripts/migrate.ts:576-579 | the queue holds the pending migrations in the declared order, each as often as it is declared |
| MigrationRunner.Runner.RunQueue | scripts/migrate.ts:609-655 | the rows are written in queue order and stop at the first failure |
| MigrationRunner.AlwaysAFrontier | scripts/migrate.ts:447-656 | over any history of plain runs the ledger sits at a frontier of the declared order, in every environment |
| MigrationRunner.AppliedIsAPrefix | scripts/migrate.ts:576-656 | the applied migrations are always a prefix of the declared order |
| MigrationRunner.NothingAfterAFailure | scripts/migrate.ts:641-652 | only a run's last row can be a failure, and its rows follow the queue without a gap |
| MigrationRunner.DryRunsWriteNothing | scripts/migrate.ts:604-634 | a rehearsal writes no ledger row |
| MigrationRunner.NothingLeftToApply | scripts/migrate.ts:593-596 | once all are applied a further run has an empty queue and writes nothing |
| MigrationRunner.OnlyKeepsOrderExactly | scripts/migrate.ts:580-591 | a successful `--only` run leaves a prefix exactly when everything before it was applied |
| MigrationRunner.AssertRegistryCovers | scripts/migrate.ts:379-414 | reports exactly the bindings without a row, the rows without a binding, a name given twice and a missing file, and nothing exactly when there are none |
| TemplateSubmission.ExistingTemplates | scripts/submit-whatsapp-templates.ts:110-147 | the listing is what the rows of all pages come to, and the first failed page ends it |
| TemplateSubmission.LatestExactly | scripts/submit-whatsapp-templates.ts:118-122 | it has exactly the keys of the rows, each with what its last row says |
| TemplateSubmission.Submission.CreateTemplate | scripts/submit-whatsapp-templates.ts:163-197 | tries, stores and outcome are those of the API's answers, up to five |
| TemplateSubmission.Submission.Run | scripts/submit-whatsapp-templates.ts:206-309 | sends the creates, then the edits if asked, and reports each chosen key once, with the status its write came to |
| TemplateSubmission.Submission.SendEdits | scripts/submit-whatsapp-templates.ts:292-306 | an edit's row, with the status of the edit, takes the place of its template's row |
| TemplateSubmission.ReportIsTrue | scripts/submit-whatsapp-templates.ts:262-306 | every reported row is true: existing keys were there, created and edited ones are there as wanted, failed ones were to be created or edited |
| TemplateSubmission.AccountHoldsLast | scripts/submit-whatsapp-templates.ts:163-306 | after a run every key of the account holds what its last stored write put there, confirmed or not, and what it held before where none was stored |
| TemplateSubmission.RunSendsOnlyAllowed | scripts/submit-whatsapp-templates.ts:206-309 | every write of a run is an allowed one, and what was sent before stays |
| TemplateSubmission.AllowedMeans | scripts/submit-whatsapp-templates.ts:79-245 | an allowed create is of an unlisted key not on the never list, an allowed edit of no template in review and no authentication payload |
| TemplateSubmission.TakenUpExactly | scripts/submit-whatsapp-templates.ts:206-293 | to be created are the sendable payloads the account has not, in order; to be edited those it has in another shape, neither in review nor in appeal, and no authentication template; of each the first so many, if a limit above zero is given |
| TemplateSubmission.ReplacedExactly | scripts/submit-whatsapp-templates.ts:298-300 | an edit's row goes to the end of the report, and the first row of its template is gone |
| TemplateSubmission.AtMostFiveTries | scripts/submit-whatsapp-templates.ts:166-196 | with distinct keys no write is tried more than five times in a run |
| TemplateSubmission.NeverCreatedAgain | scripts/submit-whatsapp-templates.ts:227-231 | a key on the account at the start of a run is never created again by it or any later run, however they end and whatever reviews come between |
| TemplateSubmission.SettledKey | scripts/submit-whatsapp-templates.ts:231-246 | after a run that sent everything and had it made, each chosen template is there and, with edits, has nothing left to edit |
| TemplateSubmission.NothingLeftToSendExactly | scripts/submit-whatsapp-templates.ts:206-309 | after a run whose writes were all made, with or without edits, the next one sends nothing exactly when the limit cut nothing off |
| AppRelease.Releases.PublishBuild | scripts/publish-app-release.ts:337-497 | applies the gates in order and writes both changes of the transaction or neither |
| AppRelease.Releases.PromoteBuild | scripts/publish-app-release.ts:289-318 | demotes the others, then publishes the target, each write a state of its own |
| AppRelease.GateExactly | scripts/publish-app-release.ts:337-428 | the gate refuses a build for the first of its faults: contents, manifest, package, a debug certificate, a number taken, a published number that is not lower |
| AppRelease.PublishWrites | scripts/publish-app-release.ts:430-497 | a completed publication adds its row, published, behind the others and supersedes every other live row of the app and nothing else |
| AppRelease.PromoteWrites | scripts/publish-app-release.ts:289-318 | a completed promotion publishes the live row of that number and supersedes every other live row of the app and nothing else |
| AppRelease.NothingWritten | scripts/publish-app-release.ts:289-497 | a refused, rehearsed or uncommitted run writes nothing |
| AppRelease.StatesSound | scripts/publish-app-release.ts:289-497 | every write of a run leaves version codes unique and at most one release of an app published |
| AppRelease.NeverTwoPublished | scripts/publish-app-release.ts:289-497 | so does every write of any sequence of runs, interrupted or not |
| AppRelease.CompletedRunShowsItsBuild | scripts/publish-app-release.ts:289-497 | a completed run leaves exactly its own build published, and a new one is higher than what it replaces |
| AppRelease.InterruptedPromotion | scripts/publish-app-release.ts:312-316 | a promotion cut off between its writes leaves a published release exactly when the target was published already |
| AppRelease.OtherAppsUntouched | scripts/publish-app-release.ts:289-497 | no run changes another app's rows |
| AppRelease.PublishingOnlyGoesUp | scripts/publish-app-release.ts:416-428 | over any history of runs without a rollback every admitted build is higher than all live ones before it |
| AppRelease.RollbackLetsALowerBuildIn | scripts/publish-app-release.ts:416-428 | after a rollback the gate admits a build below one already handed out |
| AppRelease.GateProtectsExactly | scripts/publish-app-release.ts:416-428 | every admitted build suits every phone exactly when no live code is above the published one, or as many live codes are as there are numbers up to the highest |
| VersionOrder.Compare | scripts/publish-app-release.ts:134-142 | returns the difference at the first dotted part in which the versions differ |
| VersionOrder.CompareDecides | scripts/publish-app-release.ts:134-142 | its sign says which version is newer, and it is zero exactly for the same version |
| VersionOrder.EqualLengthsExactly | scripts/publish-app-release.ts:134-142 | versions of one length compare by the difference at the first part in which they differ |
| VersionOrder.TrailingZero | scripts/publish-app-release.ts:137-140 | a part left out counts as zero |
| VersionOrder.TotalPreorder | scripts/publish-app-release.ts:132-142 | the comparator is a total preorder, the same both ways round |
| VersionOrder.SortPutsNewestFirst | scripts/publish-app-release.ts:132-142 | the directory tried first holds a version at least as new as every other |
| VersionOrder.SortIsStable | scripts/publish-app-release.ts:134-142 | directories of one version stay in the order they were listed in |
| RefundConversion.GroupRows | scripts/migrate-legacy-refunds-to-requests.ts:66-70 | the map holds each order's rows in their order, its keys as they first come up |
| RefundConversion.SelectedExactly | scripts/migrate-legacy-refunds-to-requests.ts:61-65 | selected are the rows owed that no request names or turned down, each as often as it is there, in order |
| RefundConversion.TotalExactly | scripts/migrate-legacy-refunds-to-requests.ts:77 | every row of an order counts once with its amount |
| RefundConversion.TurnExactly | scripts/migrate-legacy-refunds-to-requests.ts:76-121 | an order with an open request or a processing row is skipped; otherwise one request for the group's total and rows is opened, and exactly the group's rows still owed and unlinked are linked to it, unless the link is lost |
| RefundConversion.Conversion.Turn | scripts/migrate-legacy-refunds-to-requests.ts:76-121 | one order is skipped, rehearsed, refused, left unlinked or raised and linked |
| RefundConversion.Conversion.MigrateDeliveryFeeRows | scripts/migrate-legacy-refunds-to-requests.ts:60-124 | both collections and the three counts are those of the orders' turns, each order is counted once, and the count raised is tied to the requests created |
| RefundConversion.GroupingPartitions | scripts/migrate-legacy-refunds-to-requests.ts:66-70 | the groups together are the selected rows, each once, in the group of its order |
| RefundConversion.TotalsAddUp | scripts/migrate-legacy-refunds-to-requests.ts:66-77 | the group totals sum to the rows' total |
| RefundConversion.RequestsCounted | scripts/migrate-legacy-refunds-to-requests.ts:85-123 | a rehearsal changes nothing; otherwise each order raised has its request and only one counted as failed can have one besides |
| RefundConversion.RunConservesMoney | scripts/migrate-legacy-refunds-to-requests.ts:76-122 | what a run asks for and what it leaves behind come to what was selected |
| RefundConversion.TurnKeepsInv | scripts/migrate-legacy-refunds-to-requests.ts:76-121 | one order's turn keeps the two collections sound, whichever write fails |
| RefundConversion.HistoryKeepsInv | scripts/migrate-legacy-refunds-to-requests.ts:18-35 | over any history no order has two open requests, a row is linked to at most one of its own order, and a request with linked rows asks for exactly what they are owed |
| RefundInterleaving.RunIsItsTurns | scripts/migrate-legacy-refunds-to-requests.ts:60-124 | selecting and taking every order's turn, with nothing in between, is the run |
| RefundInterleaving.InterleavedKeepsSound | scripts/migrate-legacy-refunds-to-requests.ts:60-124 | whatever happens between the turns, no order has two open requests and a row is linked to at most one, of its own order |
| RefundInterleaving.EventBalancesExactly | scripts/migrate-legacy-refunds-to-requests.ts:76-115 | a step keeps every request asking for what its linked rows are owed exactly when it is not a turn that asks for money settled since beside money still owed |
| RefundInterleaving.InterleavedKeepsBalance | scripts/migrate-legacy-refunds-to-requests.ts:60-124 | so does every interleaving without such a turn |
| RefundInterleaving.InterleavedKeepsInv | scripts/migrate-legacy-refunds-to-requests.ts:60-124 | where no row is settled by hand, every interleaving keeps all of it |
| RefundInterleaving.SettledMeanwhileIsAskedFor | scripts/migrate-legacy-refunds-to-requests.ts:76-115 | one of an order's two rows settled between the selection and its turn is asked for again |
| RefundInterleaving.InterleavedAsksOnce | scripts/migrate-legacy-refunds-to-requests.ts:33-35 | while every link is written no row is named by two requests, whatever happens between the turns |
| RefundConversion.RunsKeepLinks | scripts/migrate-legacy-refunds-to-requests.ts:107-115 | no run overwrites a link |
| RefundConversion.AskedOnceWhileLinksAreKept | scripts/migrate-legacy-refunds-to-requests.ts:33-35 | while every link is written no row is named by two requests |
| RefundConversion.AskedOnceExactly | scripts/migrate-legacy-refunds-to-requests.ts:95-121 | after a run, every future that writes its links asks for each row once exactly when the run lost the link of no order it could raise |
| RefundConversion.LostLinkAsksAgain | scripts/migrate-legacy-refunds-to-requests.ts:95-121 | a lost link, that request's completion and a clean run ask for the same rows again |
| Sampler.RoundRobin | scripts/dev-dump-vectoriser-payloads.ts:93-109 | the loop ends with the first LIMIT picks of the buckets read column by column |
| Sampler.PickProductIds | scripts/dev-dump-vectoriser-payloads.ts:78-109 | the products in type buckets, each sorted, sampled so |
| Sampler.BucketHolds | scripts/dev-dump-vectoriser-payloads.ts:77-84 | a type's bucket holds exactly its products, each as often as it is found, with the number of variants counted for it, or none |
| Sampler.SortOrders | scripts/dev-dump-vectoriser-payloads.ts:85-87 | a bucket keeps its products and is sorted by the number of variants, most first, then by id |
| Sampler.FirstIsFront | scripts/dev-dump-vectoriser-payloads.ts:89-108 | the picks come in column order and leave no gap in any bucket |
| Sampler.PicksArePrefix | scripts/dev-dump-vectoriser-payloads.ts:89-108 | each type's picks are a prefix of its sorted bucket |
| Sampler.SampleIsFair | scripts/dev-dump-vectoriser-payloads.ts:54-61 | no type gets more than one pick beyond a type that still has products left |
| Sampler.SampleSizeAndDistinct | scripts/dev-dump-vectoriser-payloads.ts:93-109 | a sample of the buckets holds min(LIMIT, total) ids, all different |
| Sampler.SampleOfProducts | scripts/dev-dump-vectoriser-payloads.ts:62-109 | the sample holds min(LIMIT, number of products) different ids, each a product's |
| Sampler.SortTypesAscends | scripts/dev-dump-vectoriser-payloads.ts:94 | the types are visited in ascending order |
| Sampler.SampleIsRepeatable | scripts/dev-dump-vectoriser-payloads.ts:89-91 | the same products, found in any order, give the same buckets and the same sample |
| ObjectFinder.EnclosingObject | scripts/doc-file-detail-fix.ts:94-116 | answers with the innermost matched braces round the position, and with nothing exactly when there are none |
| ObjectFinder.ClosesFirst | scripts/doc-file-detail-fix.ts:94-116 | the last open brace and its match strictly contain the position and lie inside every other such pair |
| ObjectFinder.NeverCloses | scripts/doc-file-detail-fix.ts:94-116 | when the last open brace has no match, no matched pair holds the position |
| ObjectFinder.CollectEdits | scripts/doc-file-detail-fix.ts:126-176 | the edits are exactly those the objects' verdicts ask for, in order |
| ObjectFinder.WantedExactly | scripts/doc-file-detail-fix.ts:126-176 | an edit is wanted exactly at a `"mimeType"` key whose innermost object has an id and a key, no access and no raw-record marker, and whose key's visibility is known |
| ObjectFinder.AccessTextExactly | scripts/doc-file-detail-fix.ts:166-171 | the text inserted is the member and a space behind other text, and the member, a newline and the line's own indentation otherwise |
| ObjectFinder.ApplyEdits | scripts/doc-file-detail-fix.ts:178-187 | applying them last to first inserts them all at once, each in front of its character |
| ObjectFinder.SortsLastFirst | scripts/doc-file-detail-fix.ts:183 | the sort keeps all edits and puts none behind a later place |
| ObjectFinder.AppliedIsSimultaneous | scripts/doc-file-detail-fix.ts:178-187 | one-by-one application from the last is simultaneous insertion |
| ObjectFinder.RemovingRestores | scripts/doc-file-detail-fix.ts:178-187 | taking the inserted texts out again restores the page |
| ObjectFinder.EditsKeepObjects | scripts/doc-file-detail-fix.ts:178-187 | no edit changes which object holds another place |
| ObjectFinder.SitesApart | scripts/doc-file-detail-fix.ts:129-131 | two matches of the key pattern never overlap |
| ObjectFinder.SitesExactly | scripts/doc-file-detail-fix.ts:178-187 | the matches in the edited page are exactly those of the page, each where the edits moved it |
| ObjectFinder.ObjectText | scripts/doc-file-detail-fix.ts:166-187 | an object's text is unchanged when no edit fell inside it, and has an `access` member otherwise |
| ObjectFinder.SecondRunFindsNothing | scripts/doc-file-detail-fix.ts:126-187 | a second run over the edited page inserts nothing |
| EnvelopeFix.FindStatus | scripts/doc-envelope-fix.ts:61-67 | looks up the status in the twelve lines above the fence |
| EnvelopeFix.StatusIsNearest | scripts/doc-envelope-fix.ts:56-67 | the status found is the nearest one stated, and none is found only when none is stated |
| EnvelopeLines.WithCommaExactly | scripts/doc-envelope-fix.ts:168-179 | the comma replaces what stands from the first place on where only a comma, if any, and white space are left |
| EnvelopeLines.IndentExactly | scripts/doc-envelope-fix.ts:167-174 | the indentation is all the white space a line starts with |
| EnvelopeLines.MoreExactly | scripts/doc-envelope-fix.ts:177-178 | more follows exactly when the next written line does not start on a closing bracket |
| EnvelopeLines.OneLineExactly | scripts/doc-envelope-fix.ts:157 | a block counts as one line exactly when all its other lines are blank |
| JsText.BlankExactly | scripts/doc-envelope-fix.ts:157-177 | a line is blank exactly when every character of it is white space |
| EnvelopeLines.SuccessFalseExactly | scripts/doc-envelope-fix.ts:92-166 | a text says `"success": false` exactly where it can be cut so, white space around the colon or none |
| EnvelopeLines.FenceExactly | scripts/doc-envelope-fix.ts:84-85 | a fence line is white space and three backquotes, and whatever follows |
| EnvelopeLines.JoinExactly | scripts/doc-envelope-fix.ts:80-89 | lines joined by newlines and split again are the lines |
| EnvelopeFix.RewriteBlock | scripts/doc-envelope-fix.ts:160-188 | builds the block's new lines, line by line |
| EnvelopeFix.AnchorExactly | scripts/doc-envelope-fix.ts:127-147 | the anchor is the first line with a message behind the first code and before the first details, else the first code line, and none exactly when there is neither |
| EnvelopeTwice.PlanShape | scripts/doc-envelope-fix.ts:89-162 | a block is rewritten exactly when it is an error without data, lacks something, has an anchor and more than one written line |
| EnvelopeTwice.PairBehindAnchor | scripts/doc-envelope-fix.ts:170-184 | in the rewritten block the pair stands directly behind the anchor's line, which gets a comma; the last member gets one exactly when more follows in the object |
| EnvelopeFix.FixPage | scripts/doc-envelope-fix.ts:83-197 | every section outside the blocks is unchanged, each block becomes what the rules make of it with the status read from the finished page above, and the fence indices are the page's fences to the end |
| EnvelopeFix.SplicedSection | scripts/doc-envelope-fix.ts:190-194 | a splice changes the block's own section and no other |
| EnvelopeFix.SplicedFences | scripts/doc-envelope-fix.ts:191-194 | the shifted indices are exactly the fence lines of the spliced page |
| EnvelopeFix.FixedNoFences | scripts/doc-envelope-fix.ts:160-188 | rewriting a block writes no fence line |
| EnvelopeFix.BlockKeepsItsLines | scripts/doc-envelope-fix.ts:160-188 | a rewritten block holds its original lines in order, equal up to one trailing comma, and only inserted members besides |
| EnvelopeFix.CommasStayRightExactly | scripts/doc-envelope-fix.ts:160-188 | a block's commas stay right exactly when no line that gets something put behind it opens a bracket at its end, and something follows every line that gets a request id |
| EnvelopePlace.PairLandsInsideExactly | scripts/doc-envelope-fix.ts:170-184 | the added pair lands in the object of the anchor's key exactly when the rest of the anchor's line is level in its braces |
| EnvelopeKeys.KeysByLine | scripts/doc-envelope-fix.ts:89-96 | where no line opens on a colon, the keys found in the block are those of its lines |
| JsText.HasKeyExactly | scripts/doc-envelope-fix.ts:91-96 | a key is found exactly where the text can be cut into something, the key in quotes, white space if any, a colon, and the rest |
| EnvelopeTwice.AfterOnce | scripts/doc-envelope-fix.ts:91-188 | a rewritten block is one of an error with data or without just as before, and has a request id, status and category exactly when it had one or the rewrite wrote it |
| EnvelopeTwice.SecondPassExactly | scripts/doc-envelope-fix.ts:91-188 | a second pass under the same status changes nothing exactly when the pair's line did not get a request id instead |
| EnvelopeBreaks.OpeningBracketBreaks | scripts/doc-envelope-fix.ts:160-169 | a block in order whose first line opens an object at its end comes out with a comma behind that bracket |
| EnvelopeBreaks.ClosedObjectMissesPair | scripts/doc-envelope-fix.ts:170-184 | in the finished page of a block that closes its error object on the message's line, the added status stands behind that object |
| EnvelopeBreaks.OneLineTakesTwoPasses | scripts/doc-envelope-fix.ts:160-188 | a block with its code on the line of `"success": false` is changed by a second pass |
| RouteDirs.ResolvesExactly | scripts/verify-landing-routes.ts:52-66 | the directories found are exactly those whose path, group components left out, is the segments |
| RouteDirs.ResolvesOnce | scripts/verify-landing-routes.ts:60-66 | each of them is found once |
| RouteDirs.ExactForPlainUrls | scripts/verify-landing-routes.ts:60-66 | the search is exact on every tree exactly for URLs in which no segment is a group name |
| RouteDirs.GroupExactly | scripts/verify-landing-routes.ts:62 | a group is a name of at least one character in parentheses |
| RouteDirs.ServesExactly | scripts/verify-landing-routes.ts:44-75 | a route is served exactly when, beneath the locale folder or the app, the URL's segments lead through directories and groups to one that holds one of the six page or route files |

## Left out

- A component whose type is the name of an inherited object member (`constructor`, say) stops the component check with an error; the model has it as an unknown type. Uploading a form's JSON and Meta's own validation are left out.
- `composeToolDescription` and the rest of `buildNodes`: text building. In `Reconciler` a node's parameters are a value. How n8n finds the end of an expression is not modelled, and argument names are taken to be identifiers.
- Numbers in `CanonicalJson` are identified with the numerals JavaScript prints for them; NaN and lone surrogates are outside the model.
- URL parsing before the path state (tabs and newlines removed, edges stripped) and character rewriting by the URL parser: the filled path contains none of what they touch, except in template literals.
- Message templates are tokens, holes and characters, rather than `{{n}}` text: a parameter value that itself looks like a hole is not modelled. `renderTemplate` of the catalogue and its own tidying are a plain filling of holes.
- Regular expressions are direct predicates on characters. In `EnvelopeFix` the two that extract a value (the first code, a free-standing 4xx or 5xx number) are parameters, as are the code registry and its categories; in `ObjectFinder` so are the stored key's value and the storage census. What a second pass does is stated for blocks with no line that opens on a colon and whose first code is still found first.
- A ledger row's time is its place in the ledger: clocks that step back are not modelled. One migration runner works on one ledger; two at once are not modelled.
- The Mongo server: unique indexes admit or refuse writes as their definition says, a build succeeds only on data it holds of and may fail for any reason; the review migration's status moves and recomputations are not modelled.
- Graph listing cursors and their version prefix, pauses, and the texts of errors; a listing is taken to be the account at that moment. Two payload keys are told apart as pairs rather than as joined text, and the visible shape of a template is one value.
- `RefundRequestService.create` either refuses or opens one request; ceilings, fees, earnings pauses and the bookings half of the script are left out, since they add no state shared with the rows. One conversion runs at a time; an order's turn is one step, its checks and writes with nothing in between. Settling by hand completes a row with no open request on its order; partial covers, which split a row, are left out.
- APK reading, signing tools and uploads: what they find is part of the build; an upload without a row is not modelled.
- Ids in the sampler are ordered by code unit where the script uses locale order; for hexadecimal ids the two agree.
- Paths in `RouteDirs` are names in a tree: `.` and `..` segments, links and case-insensitive file systems are outside the model.
- Index, backfill and audit scripts with one filter or one sum, console output, argument parsing and clocks would only add easy members.
