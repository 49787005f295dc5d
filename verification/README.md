# automat, verified

automat vends and baselines AWS accounts for regulated work. It names control catalogs by a hash of their
content, resolves rule parameters that two catalogs bind differently, keeps an evidence chain for every account,
and brings AWS services to a wanted state with operations that can be planned, repeated and resumed. This project
models the parts of it where those promises are decided, in Dafny, and proves the promises for all inputs, all
runs and all points of failure.

`dafny verify dfyconfig.toml` checks everything.

## How it is laid out

| part | modules | what it is about |
|---|---|---|
| Artifact identity | `RepeatedKeys`, `DuplicateKeys`, `RepeatPaths`, `CanonicalJson`, `JsonSpelling`, `SetText`, `Respelling`, `Reading`, `StableSort`, `Canonical`, `CanonicalOrder`, `ContentEncoding`, `ContentFields`, `Validation`, `ValidDocuments`, `Artifacts`, `SeparatorLimits`, `ArtifactObject`, `ArtifactTypes` | the duplicate-key scan, canonical form, canonical JSON, the content hash, writing and loading |
| Parameter resolution | `ParamResolve`, `ParamFold`, `ParamFoldLimits` | the stricter of two bindings, and of any number of them |
| Evidence rotation | `Rotation`, `RotationRuns`, `RotationStrays`, `RotationWriter` | an account's records as a chain of files |
| Organization | `Organization`, `OrganizationTree`, `OrganizationScope`, `OrganizationPolicies`, `OrganizationRequests`, `OrganizationAddresses`, `OrganizationCalls`, `OrganizationEffects`, `OrganizationTags`, `OrganizationRefusals`, `OrganizationIds`, `OrganizationService` | the service that accounts, units and policies live in, over all runs of calls |
| Baseline | `Regions*`, `ConfigRecorder*`, `ConfigClient`, `AutomationRole*` | steps that make a service match a wanted state |
| Catalog | `Catalog`, `CatalogJoin`, `CatalogErrors`, `CatalogCompile`, `CatalogArtifact` | joining requirements with AWS's published mapping, and the sealed catalog that comes of it |
| Shared | `Options`, `Lists`, `Utf8`, `Decimals` | results, stable sorting and sorted sets, lengths in bytes, decimal numerals |

Code that changes things in place is a class whose methods are proved equal to functions of the state before
(`ArtifactObject`, `RotationWriter`, `OrganizationService`, `RegionsClient`, `ConfigClient`,
`AutomationRoleClient`), and loops over Go maps visit keys in an arbitrary order, so that a method proved equal to
a function of its inputs is thereby independent of that order. What the system promises is then proved about the
functions. Four kinds of argument carry most of the weight:

* two texts or results are the same exactly when two inputs say the same thing (`Artifacts.ContentTextExactly`,
  `ParamFold.CombineMeaning`);
* an invariant holds after every run of steps, failed and interrupted ones included
  (`RotationRuns.RunsConserveEvidence`, `OrganizationTree.RunsKeepTree`, `OrganizationRequests.RunsKeepPairs`);
* a step reaches its goal, repeats without effect, and can be resumed after any number of runs that fail at any call
  (`RegionsConverge.ResumesAfterFailures`, `ConfigRecorder.ResumesAfterFailures`,
  `AutomationRole.ConvergesAfterFailures`);
* a promise that the code keeps only under a condition is proved equivalent to that condition.

Beside these stand statements of what the smallest steps do, in terms of what goes in and what comes out: the
characters of canonical JSON (`JsonSpelling`), the names and omissions of the hashed fields (`ContentFields`), the order
of everything canonical (`CanonicalOrder`), what the texts of the parameter orders mean (`ParamResolve.PermitsByText`,
`ParamResolve.ResolvesByText`), what makes a document valid (`ValidDocuments`), what each call of the organization
leaves and why it is refused (`OrganizationEffects`, `OrganizationTags`, `OrganizationRefusals`), every call a baseline
step makes and where a failing one stops it (`AutomationRoleTrace`, `ConfigRecorderTrace`, `RegionsTrace`), and what the
catalog's join fails over (`CatalogErrors`).

The last kind, in short:

* on separators that are legible, two documents have one hashed text exactly when, key by key, they say the same
  things in the same order, sets compared by their members (`Artifacts.ContentTextExactly`). A separator is legible
  when it cannot overlap a shifted copy of itself except next to white space; on any other, and only there, documents
  with different members share one hashed text, as `b,,!,` and `!,,,b` do when split on `,,`
  (`Reading.TellsMembersExactly`, `SeparatorLimits.TextTellsExactly`, `Canonical.DoubleCommaBlursMembers`);
* an edited copy of a written document passes a load under the written hash, collisions apart, only if it still says
  the same, exactly for separators that cannot overlap a shifted copy of themselves except after white space; being
  legible is not enough, since a load canonicalizes what it hashes twice (`SeparatorLimits.CopiesSayTheSameExactly`);
* every order of a rule list has one canonical form exactly when rules that share identifier and name do, which
  validation does not check (`Canonical.RuleOrderBlindExactly`);
* canonical text keeps a parameter's members, for every value, exactly when the separator cannot overlap a shifted
  copy of itself except after white space; `,,` can (`SetText.KeepsMembersExactly`,
  `Canonical.DoubleCommaIsNotIdempotent`);
* under that last condition, and no other, canonical form is a fixed point, every artifact that a write accepts comes
  back from a load, and resolving bindings of a set order is their meet (`SeparatorLimits.CanonicalOnceExactly`,
  `SeparatorLimits.ComesBackExactly`, `ParamResolve.SetResolveIsMeetExactly`);
* canonicalizing keeps a valid document valid exactly when no set loses all its members; one can
  (`Validation.ControlsStayValid`, `Respelling.SetEmptied`);
* a numeric resolution is the meet of its inputs except exactly when it discards a NaN (`ParamResolve.ResolveIsMeet`);
* the outcome of combining bindings is independent of order, bracketing and repetition exactly when no NaN can be
  discarded and no binding stands alone that could not stand beside itself (`ParamFoldLimits.IndependentExactly`),
  and, for sets, when the separator is unambiguous (`ParamFoldLimits.SetsIndependentExactly`);
* a stray file placed at the name a chain ends at leaves the opening loop terminating exactly when it points
  nowhere or to files that do not lead back to that name (`RotationStrays.StrayAtTheEnd`), and with
  such strays arriving during it every run keeps what was committed (`RotationStrays.RunsHoldBesideStrays`);
* account addresses stay distinct, however pending requests are polled, exactly when no two requests in flight are
  for one address and none is for an address taken (`OrganizationAddresses.PollsKeepAddressesExactly`);
* the owner-tag gate keeps clients off a policy without its key exactly when it asks for a non-empty value
  (`OrganizationPolicies.GateShutsExactly`);
* an undisturbed region step succeeds and reaches the wanted set exactly when no region to disable is always on,
  every change fits the poll limit, no region is named both ways, and a region named twice is already where it
  should be (`RegionsConverge.ApplyConverges`). The profile loader refuses a profile that names a region twice or
  both ways (`internal/envprofile/validate.go:575-620`), so the last two hold of every loaded profile
  (`RegionsConverge.NamedOnceIsOrderly`); the step itself does not check them;
* re-running the automation role step writes nothing exactly when the wanted policy parses as a document
  (`AutomationRole.CarriedIsKept`), and its owner tag is missed exactly when tagging was the call at which the
  first run that created it failed (`AutomationRole.TagMissedExactly`);
* a binding made by hand is on its published control once exactly when no other rule bound there goes by the same
  name (`CatalogArtifact.BindingsAppearOnce`).

## Model

| member | source | states |
|---|---|---|
| DuplicateKeys.RejectDuplicateKeys | internal/artifact/canonical.go:561-642 | the loop over an explicit stack returns the report of the scan specification, for every token stream a decoder can deliver |
| RepeatedKeys.RepeatsMeanRepeat | internal/artifact/canonical.go:553-561 | a document's list of repeats is non-empty if and only if some object at some depth repeats a key |
| RepeatedKeys.RepeatsInOrder | internal/artifact/canonical.go:553-561 | that list is in document order, each repeat at the position of its key's token |
| DuplicateKeys.FramePath | internal/artifact/canonical.go:660-679 | the path loop renders the labels of the open containers |
| DuplicateKeys.PathFromSkipsEmpty | internal/artifact/canonical.go:664-666 | segments with empty labels do not appear in a path |
| DuplicateKeys.ScanDetectsRepeats | internal/artifact/canonical.go:561-642 | on any document of any nesting the scan reports an error if and only if some object at some depth repeats a key |
| DuplicateKeys.ScanReportsFirstRepeat | internal/artifact/canonical.go:590-642 | on a stream of documents cut off anywhere, the reported key, path and position are those of the first repeat in document order before the cut, and there is no report if there is none |
| RepeatPaths.ReportLeads | internal/artifact/canonical.go:561-642 | the labels reported with a repeated key lead, key by key and position by position, from the document to an object that names the key twice |
| RepeatPaths.LabelsLead | internal/artifact/canonical.go:609-618 | the same for every repeat of the document |
| RepeatPaths.PathSpelled | internal/artifact/canonical.go:660-679 | a label is written after what comes before it: a position in brackets as it is, a key after a dot unless nothing comes before, an empty label not at all |
| CanonicalJson.PrintParses | internal/artifact/canonical.go:317-362 | a parser recovers a printed value from the front of any text whose next character could not continue a number, and stops exactly where it ends |
| CanonicalJson.RoundTrip | internal/artifact/canonical.go:276-292 | parsing canonical text gives the value back with nothing left over, and printing that gives the same bytes |
| CanonicalJson.PrintInjective | internal/artifact/canonical.go:264-275 | equal canonical text if and only if equal values |
| CanonicalJson.WriteCanonical | internal/artifact/canonical.go:317-362 | the recursive printer appends exactly the canonical text, whatever order the map is visited in |
| CanonicalJson.CollectKeys | internal/artifact/canonical.go:319-325 | the keys of a map come out sorted, each once |
| JsonSpelling.PlainTextPrints | internal/artifact/canonical.go:306-315 | a text without quote, backslash, control character or line separator prints as itself between two quotes |
| JsonSpelling.SpecialCharacters | internal/artifact/canonical.go:306-315 | how the other characters are written: seven with a letter, the rest with four lower-case digits |
| JsonSpelling.TextPrints | internal/artifact/canonical.go:306-315 | a printed text is its characters in a row between quotes |
| JsonSpelling.LeavesPrint | internal/artifact/canonical.go:353-360 | literals are spelled out, numbers are kept as written |
| JsonSpelling.ArrayPrints | internal/artifact/canonical.go:343-352 | an array is its items in brackets with single commas |
| JsonSpelling.ObjectPrints | internal/artifact/canonical.go:319-342 | an object is its members in braces, keys strictly increasing, with single colons and commas |
| JsonSpelling.NumberGrammar | internal/artifact/canonical.go:276-292 | a number is an optional minus, an integer without leading zeros, an optional fraction and an optional exponent |
| Lists.SortedUniqueSame | internal/artifact/canonical.go:235-249 | two lists have one canonical list if and only if they have the same members |
| Lists.SortedUniqueIdempotent | internal/artifact/canonical.go:235-249 | the canonical list of a canonical list is itself |
| Lists.ComputeSortedUnique | internal/artifact/canonical.go:235-249 | the loop with a seen map followed by a sort yields the strictly increasing list of the members |
| SetText.Members | internal/artifact/types.go:367-380 | splitting, trimming, dropping empty parts, sorting and removing repeats gives the member list |
| SetText.MembersAreGood | internal/artifact/types.go:367-380 | members are non-empty, trimmed, free of the separator, strictly increasing |
| SetText.SpaceCharacters | internal/artifact/types.go:367-380 | which characters are trimmed, by code point |
| SetText.SplitUndoesJoin | internal/artifact/types.go:367-380 | splitting a joined list of members gives the list back, for every unambiguous separator |
| SetText.KeepsMembersExactly | internal/artifact/canonical.go:222-230 | joining the members and splitting again keeps the members of every text if and only if the separator is unambiguous |
| Respelling.RespellsOnceExactly | internal/artifact/canonical.go:222-230 | respelling a value twice is respelling it once, for every value, if and only if the separator is unambiguous |
| Reading.TellsMembersExactly | internal/artifact/canonical.go:222-230 | the canonical spelling of a value determines its members, for all values, if and only if the separator is legible: no overlap with a shifted copy of itself without white space next to it |
| Reading.JoinInjective | internal/artifact/canonical.go:222-230 | on a legible separator a joined list of members is the join of no other list |
| Reading.TellsMembersTwiceExactly | internal/artifact/canonical.go:436-443 | the spelling of the spelling, which is what a load hashes, determines the members if and only if the separator is unambiguous |
| Respelling.SetEmptied | internal/artifact/canonical.go:222-230 | with the separator `aaa` a value with two members has none in canonical form |
| SetText.OneCharacter | internal/artifact/types.go:346-362 | every separator of one character, the default included, keeps the members of every text |
| Canonical.EnforcementSame | internal/artifact/canonical.go:95-126 | enforcement classes have one canonical list if and only if they are the same set |
| CanonicalOrder.ClassesInOrder | internal/artifact/canonical.go:95-126 | canonical enforcement classes are the given ones, each once: scp, config-rule, procedural and baseline-protection in that order, then unknown ones by name |
| CanonicalOrder.ControlsInOrder | internal/artifact/canonical.go:51-58 | canonical controls stand by id |
| CanonicalOrder.RulesInOrder | internal/artifact/canonical.go:77-88 | canonical rules stand by identifier, then by name |
| CanonicalOrder.StatementsInOrder | internal/artifact/canonical.go:128-134 | canonical statements stand by Sid |
| CanonicalOrder.ExemptsInOrder | internal/artifact/canonical.go:183-202 | canonical exempt principals are the given ones, each once, by principal and then by reason |
| CanonicalOrder.SourcesInOrder | internal/artifact/canonical.go:37-49 | canonical sources stand by kind, then by the value that names them, then by hash |
| CanonicalOrder.TextOrder | internal/artifact/canonical.go:57-58 | text order goes by the first character that differs, and a text comes before those that continue it |
| StableSort.SortedSame | internal/artifact/canonical.go:52-88 | two lists sort to one list by a key if and only if, key by key, the same elements stand in the same order |
| StableSort.EveryOrderAlikeExactly | internal/artifact/canonical.go:52-88 | every order of a list has one canonical form if and only if elements that share a key have one |
| Canonical.ParameterSame | internal/artifact/canonical.go:222-230 | parameters have one canonical form if and only if they agree but for the spelling of the default separator and of the member list; those with the same members do, and on a legible separator only those |
| Canonical.RulesSame | internal/artifact/canonical.go:77-88 | rule lists have one canonical list if and only if, for each identifier and name, rules spelled alike stand in the same order in both; lists that say the same, sets compared by members, do, and on legible separators only those |
| Canonical.SCPSame | internal/artifact/canonical.go:128-148 | policy blocks have one canonical form if and only if they say the same, statements that share a Sid in the same order |
| Canonical.BlockSame | internal/artifact/canonical.go:66-73 | an empty policy block and none are the same, and nothing else is lost |
| Canonical.BlockDropped | internal/artifact/canonical.go:144-147 | a block is dropped if and only if it has no statement, no region and no service |
| Canonical.ControlsSame | internal/artifact/canonical.go:51-88 | control lists have one canonical list if and only if they are spelled alike at every level of nesting, entries that share a key in the same order; those that say the same, sets compared by members, are, and on legible separators only those; nothing is assumed unique |
| Canonical.ControlsIdempotent | internal/artifact/canonical.go:28-88 | canonicalizing twice is canonicalizing once if and only if the set-valued texts are stable |
| Canonical.OrderBlind | internal/artifact/canonical.go:51-88 | where ids, identifiers and names, or Sids tell the entries apart, two lists say the same exactly when they have the same entries, in whatever order |
| Canonical.RuleOrderBlindExactly | internal/artifact/canonical.go:82-87 | every order of a rule list has one canonical form if and only if rules that share identifier and name have one |
| Canonical.UnambiguousIsStable | internal/artifact/canonical.go:222-230 | an unambiguous separator, the default included, makes a parameter stable |
| Canonical.DoubleCommaIsNotIdempotent | internal/artifact/canonical.go:222-230 | with the separator `,,` a value changes its members under canonicalization, and again under a second one |
| Canonical.DoubleCommaBlursMembers | internal/artifact/canonical.go:222-230 | with the separator `,,` the values `b,,!,` and `!,,,b` list different members and have one canonical spelling, which stays as it is |
| ContentEncoding.ContentJsonSame | internal/artifact/canonical.go:415-430 | the JSON value that is printed determines the content, field omission included |
| ContentFields.ContentReads | internal/artifact/canonical.go:371-388 | the hashed content is the controls in order, and the exempt services unless there are none |
| ContentFields.ControlReads | internal/artifact/types.go:222-231 | the fields of a control by name, what each holds, and which are left out when empty |
| ContentFields.SCPReads | internal/artifact/types.go:247-251 | likewise of a policy block; an absent statement list is null, an empty one an empty array |
| ContentFields.StatementReads | internal/artifact/types.go:261-277 | likewise of a statement |
| ContentFields.ConditionReads | internal/artifact/types.go:261-277 | a condition is an object of operators, each of keys, each a list |
| ContentFields.ExemptReads | internal/artifact/types.go:291-297 | likewise of an exempt principal |
| ContentFields.RuleReads | internal/artifact/types.go:330-340 | likewise of a rule |
| ContentFields.ParameterReads | internal/artifact/types.go:348-354 | likewise of a parameter |
| ContentFields.AttestationReads | internal/artifact/types.go:383-387 | likewise of an attestation |
| Artifacts.ContentTextExactly | internal/artifact/canonical.go:415-430 | two artifacts that say the same, sets compared by members, have the same hashed text: no order among entries with different keys, no repeat and no spelling of the default separator reaches it; on legible separators only those that say the same do; on any separator, exactly those whose sets also read the same |
| Artifacts.AbsentStatementsDiffer | internal/artifact/canonical.go:128-148 | a missing statement list and an empty one are different content |
| Artifacts.CanonDocumentIdempotent | internal/artifact/canonical.go:28-58 | canonical documents are fixed points, sources and service list included, if and only if the set-valued texts are stable |
| Artifacts.CanonKeepsHash | internal/artifact/canonical.go:436-443 | canonicalizing keeps the hashed text if and only if the set-valued texts are stable, and then the hash |
| Artifacts.CanonStaysValid | internal/artifact/validate.go:124-156 | a document that validates still validates in canonical form if and only if no set-valued parameter loses all its members |
| Validation.ControlsStayValid | internal/artifact/validate.go:243-340 | canonical form breaks no rule on controls, statements, exemptions, rules or parameters but that a set must have members; valid controls stay valid if and only if their sets keep some |
| Validation.CheckStatementList | internal/artifact/validate.go:458-483 | the loop finds no problem if and only if the entries are non-empty, printable and distinct |
| ValidDocuments.DocumentValid | internal/artifact/validate.go:124-241 | what makes a document valid, by its own fields and those of its entities |
| ValidDocuments.SourceValid | internal/artifact/validate.go:197-241 | a source names exactly one thing and the hash of what was read |
| ValidDocuments.ControlValid | internal/artifact/validate.go:266-340 | a control has known classes, each once, and carries exactly what they call for |
| ValidDocuments.SCPValid | internal/artifact/validate.go:342-456 | a policy block carries something, its statements have different Sids |
| ValidDocuments.StatementValid | internal/artifact/validate.go:342-483 | a statement denies listed actions, each once, and its condition is filled in |
| ValidDocuments.ExemptValid | internal/artifact/validate.go:491-551 | at most eight principals are exempt, each once, with a printable reason of at most 512 bytes |
| ValidDocuments.RuleValid | internal/artifact/validate.go:553-613 | a rule has an identifier and comes from the mapping, or from a binding with a reason |
| ValidDocuments.ParameterValid | internal/artifact/validate.go:575-613 | a parameter has a known order; only a set has a separator, and it lists a member |
| ValidDocuments.AttestationValid | internal/artifact/validate.go:631-654 | an attestation has a template and one of six frequencies |
| Artifacts.WriteThenLoad | internal/artifact/load.go:130-173 | an artifact that a write accepts is what was sealed, is accepted by a load under any options, and comes back equal, if and only if its set-valued texts are stable |
| ValidDocuments.LoadExactly | internal/artifact/load.go:33-68 | a load refuses what is not valid as it stands, then what does not have the declared hash, each check skippable, and otherwise gives the canonical form |
| ValidDocuments.HashIgnoresMeta | internal/artifact/canonical.go:391-408 | neither the version nor what a document says of itself reaches the content hash |
| SeparatorLimits.CanonicalOnceExactly | internal/artifact/canonical.go:28-88 | canonicalizing twice is canonicalizing once, for every document split on a separator, if and only if the separator is unambiguous |
| SeparatorLimits.ComesBackExactly | internal/artifact/load.go:33-68 | every document split on a separator that a write accepts is what was sealed and is given back by a strict load, for every hash and all text shapes, if and only if the separator is unambiguous |
| SeparatorLimits.TextTellsExactly | internal/artifact/canonical.go:415-430 | among valid documents split on a separator, one hashed text means saying the same, sets compared by members, if and only if the separator is legible |
| SeparatorLimits.CopiesSayTheSameExactly | internal/artifact/load.go:33-68 | edited copies of what a write put on disk, split on a separator, pass a strict load under its hash without a collision only if they say the same, if and only if the separator is unambiguous |
| Artifacts.EditedCopyLoads | internal/artifact/canonical.go:459-471 | a valid edited copy with the old hash loads if and only if the two canonical forms hash alike; it does if it still says the same, or reads the same; if it loads and does not read the same, and the sets of both are stable, the hash function collides on two different texts; on legible separators what reads the same says the same |
| ArtifactObject.CanonicalizeParameter | internal/artifact/canonical.go:222-230 | the steps, in the order the program takes them, give the canonical parameter |
| ArtifactObject.CanonicalizeRule | internal/artifact/canonical.go:204-214 | the loop gives the canonical rule, whatever order the parameter map is visited in |
| ArtifactObject.CanonicalizeCondition | internal/artifact/canonical.go:149-169 | nested condition maps are canonicalized and empty operators dropped, in any order of visiting |
| ArtifactObject.CanonicalizeControls | internal/artifact/canonical.go:51-88 | the loops over controls, statements and rules give the canonical list |
| ArtifactObject.Artifact.Canonicalize | internal/artifact/canonical.go:28-49 | the artifact's fields become those of the canonical document |
| ArtifactObject.Artifact.CanonicalContentJSON | internal/artifact/canonical.go:415-430 | the hashed text, computed on a copy: the artifact is not changed |
| ArtifactObject.Artifact.SetContentHash | internal/artifact/canonical.go:447-455 | canonicalizes, then stores the hash |
| ArtifactObject.Artifact.VerifyContentHash | internal/artifact/canonical.go:459-471 | true if and only if the declared hash is that of the content |
| ArtifactObject.Artifact.Write | internal/artifact/load.go:130-173 | seals, validates, and hands back the document, or refuses; the artifact is sealed either way |
| ArtifactObject.Decode | internal/artifact/load.go:33-68 | validates the decoded document, canonicalizes it, checks the hash, in that order, each step skippable |
| ParamResolve.SetResolve | internal/artifact/order.go:142-164 | the loops compute the strictly sorted intersection or union of two member lists |
| ParamResolve.AnswerPermits | internal/artifact/order.go:169-216 | whether a binding permits a candidate, for all five orders, and whether the question has an answer at all |
| ParamResolve.PermitsByText | internal/artifact/order.go:186-216 | under "min" a binding permits the numbers up to its value, under "max" those from it on, under "exact" its value, under "set-union" what it does not list, under "set-intersect" what it lists; no answer for what is no number |
| ParamResolve.ResolvesByText | internal/artifact/order.go:69-164 | under "min" the smaller number resolves, under "max" the larger, under "exact" the common value, under the set orders the union or the intersection of what is listed |
| ParamResolve.ConflictsByText | internal/artifact/order.go:69-164 | exactly when two bindings conflict, and over what |
| ParamResolve.ResolvedMembers | internal/artifact/order.go:117-164 | the members of a resolved set, after its text is split again, are the intersection or union of the inputs' |
| ParamResolve.ResolveIsMeet | internal/artifact/order.go:69-164 | a resolved binding permits a candidate exactly when both inputs do, for every candidate and all five orders, if and only if no NaN was discarded |
| ParamResolve.SetResolveIsMeetExactly | internal/artifact/order.go:117-164 | for each of the two set orders: over all bindings on a separator, resolution is the meet if and only if the separator is unambiguous |
| ParamFold.CombineMeaning | internal/artifact/order.go:69-164 | combining any bracketing of bindings succeeds if and only if the bindings can be reconciled, and then gives their strictest common reading, in terms that mention no order of combination |
| ParamFold.CombinationIsIndependent | internal/artifact/order.go:69-164 | combining the same bindings in any order and bracketing, each any number of times, conflicts always or succeeds always with equivalent results, when each binding is sound |
| ParamFoldLimits.IndependentExactly | internal/artifact/order.go:69-164 | the same for any bindings whose separators are unambiguous, if and only if: numeric ones all have one text, or one is no number, or none is NaN; and a binding alone has a known order and, in an intersection, a member |
| ParamFoldLimits.SetsIndependentExactly | internal/artifact/order.go:117-164 | for sets of one order on one separator the outcome never depends on the way of combining if and only if the separator is unambiguous |
| ParamFoldLimits.AloneDepends | internal/artifact/order.go:69-164 | an intersection without members is a result by itself and a conflict when combined with itself |
| ParamFoldLimits.NaNDepends | internal/artifact/order.go:97-115 | of a NaN and another number, which survives depends on which comes first |
| Rotation.NeverRevisits | cmd/automat/evidencerotate.go:37-51 | a pointer loop that stops is never at one name twice |
| Rotation.LoopStopsExactly | cmd/automat/evidencerotate.go:37-51 | the unbounded opening loop terminates if and only if its trail of names does not come back on itself |
| Rotation.NextNameIsFirst | cmd/automat/evidencerotate.go:70-83 | the search yields the unused name with the smallest number from 2 on, and fails if and only if all up to the bound are taken |
| RotationRuns.ChainIsTrail | cmd/automat/evidencerotate.go:37-51 | what the loop walks is the account's chain, from its first file to its open segment |
| RotationRuns.ChainRotates | internal/evidence/chain.go:150-168 | closing a segment with a pointer to an unused name extends the chain and moves no evidence |
| RotationRuns.RunKeepsChain | cmd/automat/evidencerotate.go:109-139 | a writer's run, completed or stopped at any point, leaves a chain that continues the old one, closed files as they were, and the evidence longer by the run's records or by nothing |
| RotationRuns.SuccessIsBelowThreshold | cmd/automat/evidencerotate.go:115-139 | a run that reports success has recorded everything, and the active segment is below the threshold |
| RotationRuns.UndisturbedRunSucceeds | cmd/automat/evidencerotate.go:70-139 | an undisturbed run succeeds if and only if it need not rotate or some successor name is unused |
| RotationRuns.OwnNamesApart | cmd/automat/evidencerotate.go:72 | the files of two accounts never share a name |
| RotationRuns.RunsConserveEvidence | cmd/automat/evidencerotate.go:37-139 | over every run of writes for any accounts, in any state of completion, with strays appearing and disappearing off the chains: every opening loop terminates, chains only grow, closed files never change, and the evidence is exactly the committed records in order |
| RotationRuns.EvidenceFromTheStart | cmd/automat/evidencerotate.go:37-139 | from a directory without files of the accounts: the loop stops, names are distinct, each closed segment holds at least the threshold and ends in one record naming the next file, and the segments without those records are exactly what was committed |
| RotationStrays.StrayAtTheEnd | cmd/automat/evidencerotate.go:37-51 | whatever lies on a trail that ends, a stray at its last name leaves the loop terminating if and only if it points nowhere or away from that name |
| RotationStrays.EvidenceBesideStray | cmd/automat/evidencerotate.go:37-51 | with a stray there the loop still begins with the trail's own names and the earlier files' evidence comes first; the whole record does if and only if what is found from the stray on begins with the last file's evidence, as when that file was not written yet |
| RotationStrays.PointerBackNeverStops | cmd/automat/evidencerotate.go:37-51 | a stray there that points into the trail makes the loop run forever |
| RotationStrays.RunsHoldBesideStrays | cmd/automat/evidencerotate.go:37-139 | over every run of writes for any accounts, in any state of completion, from any directory whose trails end, with others' files coming and going off the trails and harmless ones placed where a trail dangles: every opening loop terminates, trails only go on, files a trail has passed never change, and what can be read is, in order, the committed records and what the others' files led to |
| RotationStrays.WriteHolds | cmd/automat/evidencerotate.go:109-139 | one such run, on a trail with anything on it |
| RotationStrays.RefusedExactly | internal/evidence/store_dir.go:123-153 | an undisturbed run is refused and changes no file if and only if its active file is unreadable, about another account, or closed for good |
| RotationStrays.FaultsStop | cmd/automat/evidencerotate.go:109-139 | what is on disk and what is reported at each point of failure of a run that is not refused |
| RotationStrays.HealthyIsHeld | cmd/automat/evidencerotate.go:37-51 | on a healthy chain all evidence can be read |
| RotationWriter.OpenManifest.Append | internal/evidence/chain.go:63-128 | appends at the end, or refuses a closed manifest and changes nothing |
| RotationWriter.OpenManifest.Rotate | internal/evidence/chain.go:150-168 | appends one record naming the successor and the count, or refuses |
| RotationWriter.Dir.LoadOrNewNamed | internal/evidence/store_dir.go:123-153 | what is stored under a name, a new manifest if nothing is, a refusal if it is unreadable or about another account |
| RotationWriter.Dir.WriteNamed | internal/evidence/store_dir.go:249-260 | replaces one file, or refuses a manifest without records and changes nothing |
| RotationWriter.OpenActiveManifest | cmd/automat/evidencerotate.go:37-51 | the pointer loop ends at the last name of the account's trail with what is stored there |
| RotationWriter.NextRotationKey | cmd/automat/evidencerotate.go:70-83 | the counting loop finds the first unused name |
| RotationWriter.WriteManifestWithRotation | cmd/automat/evidencerotate.go:109-139 | writes, and at the threshold closes and writes again; what is on disk for each point of failure |
| RotationWriter.WriteEvidence | cmd/automat/vend.go:1910-1945 | a whole run does to the directory what the specification of a run says |
| OrganizationTree.ClimbFindsAncestors | internal/awsfake/orgvend.go:54-71 | the bounded climb finds exactly the ancestors within its bound |
| OrganizationTree.SubtreeIsAncestry | internal/awsfake/orgvend.go:54-71 | under the invariant the sixteen-step climb is the ancestor relation |
| OrganizationTree.SixteenSteps | internal/awsfake/orgvend.go:54-71 | in any organization at all a scope reaches sixteen steps |
| OrganizationTree.LevelsOrSeventeen | internal/awsfake/orgvend.go:320-327 | in any organization at all levels are counted up to the root, and a container that does not lead there in sixteen steps counts as seventeen deep |
| OrganizationTree.HeightFalls | internal/awsfake/orgvend.go:320-333 | each step up loses one level, so no way up is longer than the depth limit and one |
| OrganizationTree.NewUnitKeepsTree | internal/awsfake/orgvend.go:286-349 | a new unit keeps the tree, the depth limit and the difference of sibling names |
| OrganizationTree.CallKeepsTree | internal/awsfake/orgvend.go:160-349 | every call keeps the tree |
| OrganizationTree.RunsKeepTree | internal/awsfake/orgvend.go:160-349 | every run of calls keeps the tree |
| OrganizationTree.TreeFromTheStart | internal/awsfake/orgvend.go:54-349 | from an empty organization, after any run: everything placed hangs below the root, nothing is its own ancestor, units lie at most five deep, sibling units differ in name, and the climb is the ancestor relation |
| OrganizationScope.RunsStayInside | internal/awsfake/orgvend.go:223-313 | over any run of clients confined to a unit, each new unit and each moved account is inside its subtree, everything else is where it was, and a new account waits under the root |
| OrganizationPolicies.RunsKeepAttachments | internal/awsfake/orgpolicy.go:91-260 | every run keeps attachments free of repeats, within quota and naming existing policies, and every policy within the size limit |
| OrganizationPolicies.AttachmentsFromTheStart | internal/awsfake/orgpolicy.go:209-260 | the same, for every target, from an empty organization |
| OrganizationPolicies.RemovedKeepsRest | internal/awsfake/orgreclaim.go:79-93 | cutting a policy out of an attachment list removes it and nothing else |
| OrganizationPolicies.GatedRunsSpare | internal/awsfake/orgpolicy.go:155-290 | a policy that lacks the owner tag keeps its name, content, tags and attachments over any run in which only clients requiring the tag act on it |
| OrganizationPolicies.GateShutsExactly | internal/awsfake/orgpolicy.go:66-82 | a resource without the key of the required pair is protected if and only if the pair has a non-empty value |
| OrganizationPolicies.SplitPairParts | internal/awsfake/orgpolicy.go:74-82 | a pair is split at its first equals sign, and a key alone has an empty value |
| OrganizationPolicies.DelegatedRunsAttachInside | internal/awsfake/orgpolicy.go:53-63 | over any run of delegated clients nothing is attached to a target that is not below their unit |
| OrganizationRequests.CallOnRequest | internal/awsfake/orgvend.go:79-215 | an ended request never changes, and only its own status calls bring one nearer its end |
| OrganizationRequests.RequestsEnd | internal/awsfake/orgvend.go:160-215 | over any run a request has ended if and only if it has had its poll budget and one more status call, and then never changes |
| OrganizationRequests.RunsKeepPairs | internal/awsfake/orgvend.go:79-215 | every run keeps requests and accounts paired: succeeded requests have their own account with their name and address, failed ones have none |
| OrganizationRequests.AccountsAreSucceededRequests | internal/awsfake/orgvend.go:160-215 | from an empty organization the accounts are, one to one, those of the succeeded requests |
| OrganizationAddresses.PollsKeepAddressesExactly | internal/awsfake/orgvend.go:128-215 | addresses stay distinct over every run of status calls if and only if no two requests in flight are for one address and none is for an address an account has |
| OrganizationAddresses.FreshRunsFromTheStart | internal/awsfake/orgvend.go:79-215 | from an empty organization, runs of any calls that never ask for an address while a request for it is in flight keep all addresses distinct |
| OrganizationAddresses.AddressesMayRepeat | internal/awsfake/orgvend.go:128-144 | from an empty organization, two creates for one address followed by status calls end in two accounts with it |
| OrganizationAddresses.SeenThrough | internal/awsfake/orgvend.go:160-215 | a request in flight, polled as often as it asks, has become an account with its address |
| OrganizationCalls.MoveTakesEffect | internal/awsfake/orgvend.go:223-278 | a move that is not refused puts the account at its destination, changes nothing else, and named no source or the right one unless the account was there already |
| OrganizationCalls.MoveBack | internal/awsfake/orgvend.go:223-278 | a move and the move back restore the organization |
| OrganizationCalls.DetachUndoesAttach | internal/awsfake/orgreclaim.go:55-94 | detaching what was attached restores every target's list |
| OrganizationCalls.RefusalsLeaveNoTrace | internal/awsfake/orgvend.go:79-349 | a run ends where the run without its refused calls does, and none of the remaining calls is refused in it |
| OrganizationCalls.WorksOnce | internal/awsfake/orgpolicy.go:91-260 | a unit creation, policy creation, attachment, detachment or closure that succeeded is refused as a duplicate when repeated at once, and is refused after any run in which no rename, detachment or attachment makes room for it |
| OrganizationRefusals.RefusedExactly | internal/awsfake/orgvend.go:79-349 | each call is refused for the first thing that is wrong with it, in the order in which the service looks, and accepted when nothing is |
| OrganizationEffects.UpdateTakesEffect | internal/awsfake/orgpolicy.go:155-194 | an accepted update stores each field it gives, keeps each it omits, and changes nothing else |
| OrganizationEffects.LastUpdateStands | internal/awsfake/orgpolicy.go:155-194 | over every run each part of a policy is what the last accepted update that gave it said, and what it was before if there was none |
| OrganizationEffects.ContentSinceCreation | internal/awsfake/orgpolicy.go:91-194 | from its creation on a policy has what it was created with or what an accepted update gave |
| OrganizationEffects.CreatedPolicyIsStored | internal/awsfake/orgpolicy.go:91-146 | a created policy is stored as asked for, under a new id |
| OrganizationEffects.AttachmentsChange | internal/awsfake/orgpolicy.go:209-260 | an attachment comes after those the target has, a detachment takes one out, other targets keep theirs |
| OrganizationEffects.RequestIsStored | internal/awsfake/orgvend.go:79-153 | a request is stored for its name, address and tags, with the polls it takes and what it will fail with |
| OrganizationEffects.StatusAdvances | internal/awsfake/orgvend.go:160-215 | what each status call makes of a request, and the account that a completed one becomes |
| OrganizationEffects.UnitIsPlaced | internal/awsfake/orgvend.go:286-349 | a unit hangs under its parent by its name, with its tags |
| OrganizationEffects.AccountsStand | internal/awsfake/orgreclaim.go:107-147 | over every run an account keeps its name and address, and is closed if and only if it was before or an accepted call closed it |
| OrganizationTags.LastTagWins | internal/awsfake/orgvend.go:45-51 | of tags with one key the last counts |
| OrganizationTags.TaggingTakesEffect | internal/awsfake/orgpolicy.go:270-290 | tagging gives each key the last value given for it and keeps every other tag |
| OrganizationTags.LastTaggingStands | internal/awsfake/orgpolicy.go:270-290 | over every run the value of each key on a resource is that of the last accepted tagging that gave it |
| OrganizationTags.GateReads | internal/awsfake/orgpolicy.go:66-82 | a gate written key=value is open to a resource whose tag has that value, a missing tag counting as empty |
| OrganizationTags.AdmittedExactly | internal/awsfake/orgvend.go:96-126 | a create request is admitted if and only if it has every required key and the last tag with each pinned key has the pinned value |
| OrganizationIds.RenderedInjective | internal/awsfake/orgvend.go:335-338 | the ids handed out for different things are different texts |
| OrganizationService.OrgState.IsInSubtree | internal/awsfake/orgvend.go:54-71 | the loop is the bounded climb |
| OrganizationService.OrgState.Depth | internal/awsfake/orgvend.go:320-327 | the loop counts levels up to the root and gives up beyond its limit |
| OrganizationService.OrgState.OUNameTaken | internal/awsfake/orgvend.go:312-319 | the search over all units, in any order, finds a sibling of the name if there is one |
| OrganizationService.OrgState.OwnerTagSatisfied | internal/awsfake/orgpolicy.go:66-82 | the gate is open if and only if the resource carries the required value |
| OrganizationService.CheckRequiredTags | internal/awsfake/orgvend.go:96-126 | a create request is admitted if and only if it has every required key and every pinned value |
| OrganizationService.OrgVend.CreateAccount | internal/awsfake/orgvend.go:79-153 | the state and reply are those of the call's specification |
| OrganizationService.OrgVend.DescribeCreateAccountStatus | internal/awsfake/orgvend.go:160-215 | likewise, an account appearing under the root when its request completes |
| OrganizationService.OrgVend.MoveAccount | internal/awsfake/orgvend.go:223-278 | likewise, with the checks in the order the service makes them |
| OrganizationService.OrgVend.CreateOrganizationalUnit | internal/awsfake/orgvend.go:286-349 | likewise |
| OrganizationService.OrgPolicy.CreatePolicy | internal/awsfake/orgpolicy.go:91-146 | likewise, the size limit counted in bytes |
| Utf8.WidthHolds | internal/awsfake/orgpolicy.go:119 | a character takes as few bytes as hold its code point, of 7, 11, 16 or 21 bits |
| Utf8.LengthAdds | internal/awsfake/orgpolicy.go:119 | a text takes the bytes of its characters |
| OrganizationService.OrgPolicy.UpdatePolicy | internal/awsfake/orgpolicy.go:155-194 | likewise, the size limit counted in bytes |
| OrganizationService.OrgPolicy.AttachPolicy | internal/awsfake/orgpolicy.go:209-260 | likewise |
| OrganizationService.OrgPolicy.TagResource | internal/awsfake/orgpolicy.go:270-290 | likewise |
| OrganizationService.NewDelegatedOrgPolicy | internal/awsfake/orgpolicy.go:53-63 | the client's targets are the unit and the units below it at that moment |
| OrganizationService.OrgReclaim.DetachPolicy | internal/awsfake/orgreclaim.go:55-94 | the state and reply are those of the call's specification |
| OrganizationService.OrgReclaim.CloseAccount | internal/awsfake/orgreclaim.go:107-147 | likewise |
| Regions.PollOutcome | internal/baseline/regions.go:210-230 | polling keeps a region on its way, touches no other, and without a failing call settles it if and only if the polls it needs fit the limit |
| Regions.OneRegion | internal/baseline/regions.go:137-203 | one region's step moves that region alone, towards its side; what it reports; when it succeeds |
| RegionsTrace.RegionTrace | internal/baseline/regions.go:137-230 | the calls made for one region, what they leave of the account and what is reported, whatever was seen of the region, whatever it is by then and whichever call fails; sixty polls if the profile says none |
| RegionsConverge.ApplyConverges | internal/baseline/regions.go:60-102 | undisturbed, an apply succeeds and leaves each wanted region on and each unwanted one off if and only if that can be reached within the poll limit, no region is named both ways, and one named twice is already where it should be; given the latter two, any success means that the wanted set is reached, and no other region changes |
| RegionsConverge.NamedOnceIsOrderly | internal/envprofile/validate.go:575-620 | a profile that names no region twice and none both ways, as its validation demands, meets that condition on every account |
| RegionsConverge.SecondApplyWritesNothing | internal/baseline/regions.go:60-102 | a second apply after one that reached the wanted set issues no enable and no disable call and changes nothing |
| RegionsConverge.SatisfiedIsLeftAlone | internal/baseline/regions.go:137-194 | an account already as wanted is left alone, whatever the poll limit |
| RegionsConverge.ResumesAfterFailures | internal/baseline/regions.go:60-230 | after any number of runs, plans among them, whichever calls failed or polls gave up, an undisturbed run reaches the wanted set if one would have at first, and leaves every region on the side that run would have |
| RegionsConverge.PlanIsTruthful | internal/baseline/regions.go:60-203 | a plan changes and writes nothing, announces what a successful apply from the same state reports, and refuses what an apply refuses |
| RegionsConverge.RefusalWritesNothing | internal/baseline/regions.go:77-89 | a region that cannot be disabled is refused after the one read, before any write |
| RegionsConverge.RepeatConflicts | internal/baseline/regions.go:91-203 | a region named twice in a list, and not yet where it should be, makes that list's pass fail |
| RegionsConverge.NamedBothWaysIsMissed | internal/baseline/regions.go:91-100 | a disabled region named both ways ends up on while the step reports success |
| RegionsClient.AccountService.Enable | internal/awsfake/account.go:105-122 | refuses a region that is on, otherwise sets it enabling |
| RegionsClient.AccountService.Disable | internal/awsfake/account.go:134-155 | refuses a region that is always on or off, otherwise sets it disabling |
| RegionsClient.AccountService.GetOptStatus | internal/awsfake/account.go:166-200 | answers with the status, counting down transitional answers before the final one |
| RegionsClient.Ensurer.EnsureRegions | internal/baseline/regions.go:60-102 | the step as it runs does to the service, the call log and the actions what the specification says |
| RegionsClient.Ensurer.PollRegionOptStatus | internal/baseline/regions.go:210-230 | the poll loop, likewise |
| ConfigRecorder.ApplyConverges | internal/baseline/configrecorder.go:75-390 | asked for nothing or without a role, a run makes no call; otherwise an undisturbed apply from any state leaves the recorder with the wanted role and scope and recording and the channel at the wanted bucket, or without a bucket is refused after seeing to the recorder and leaves the channels alone; all else is as it was, whatever fails |
| ConfigRecorder.LaterRunsWriteNothing | internal/baseline/configrecorder.go:117-289 | once an apply of both steps has succeeded, no later run writes anything or changes the state, however many there are |
| ConfigRecorder.ResumesAfterFailures | internal/baseline/configrecorder.go:75-289 | after any number of runs, plans among them, whichever calls failed, an undisturbed run ends in the very state it would have reached at first |
| ConfigRecorder.PlanIsTruthful | internal/baseline/configrecorder.go:149-489 | a plan of both steps changes and writes nothing, and its (verb, kind) list is that of a successful apply without, exactly when there is no recorder yet, the entry on recording |
| ConfigRecorderTrace.RunIsItsStages | internal/baseline/configrecorder.go:75-489 | a run, planning or not and whichever call fails, is three stages, each with its calls and its entry, created, updated, enabled or unchanged, up to the call that fails |
| ConfigClient.ConfigService.PutConfigurationRecorder | internal/awsfake/config.go:166-180 | creates or replaces a recorder and does not start it |
| ConfigClient.ConfigService.StartConfigurationRecorder | internal/awsfake/config.go:278-293 | starts an existing recorder, or refuses |
| ConfigClient.Ensurer.EnsureConfigRecorder | internal/baseline/configrecorder.go:75-289 | the step as it runs does what the specification says, whether a missing recorder is an error or an empty answer |
| ConfigClient.Ensurer.EnsureDeliveryChannel | internal/baseline/configrecorder.go:374-489 | likewise |
| AutomationRole.ApplyConverges | internal/baseline/automation.go:183-306 | without a name nothing is asked; otherwise from any roles an undisturbed apply succeeds; a successful one leaves the role carrying the wanted document; other roles and policies, and the trust policy and tags of a role that exists, never change |
| AutomationRole.CarriedIsKept | internal/baseline/automation.go:254-306 | a further run writes nothing if and only if the wanted text is a document |
| AutomationRole.ConvergesAfterFailures | internal/baseline/automation.go:183-326 | after any number of runs, plans among them, whichever calls failed, a successful run leaves the role carrying the wanted document and all else as it was at first, and a further one writes nothing if and only if what is wanted is a document |
| AutomationRole.TagMissedExactly | internal/baseline/automation.go:203-249 | a role that did not exist, after any number of runs whichever of their calls failed and an undisturbed one, has the wanted trust policy and lacks the owner tag if and only if the first run that created it failed at the tagging call |
| AutomationRole.PlanIsTruthful | internal/baseline/automation.go:203-285 | a plan changes and writes nothing and announces what a successful apply reports |
| AutomationRoleTrace.UndisturbedTrace | internal/baseline/automation.go:183-306 | the calls an undisturbed run makes, what they make of the roles, and the one entry it reports |
| AutomationRoleTrace.FailureStops | internal/baseline/automation.go:183-306 | a run whose k-th call fails makes the undisturbed calls up to it, says so, reports nothing, and leaves what the calls before made |
| AutomationRoleClient.RoleService.CreateRole | internal/awsfake/iamrole.go:103-133 | creates a role with the tags given, the last value of a key counting, and without policies, or refuses a second one of the name |
| AutomationRoleClient.RoleService.PutRolePolicy | internal/awsfake/iamrole.go:187-203 | writes one inline policy of an existing role |
| AutomationRoleClient.Ensurer.EnsureAutomationRole | internal/baseline/automation.go:183-306 | the step as it runs does what the specification says |
| CatalogJoin.RequirementParts | gen/catalog/compile.go:218-223 | a mapping key stands for what follows its first hyphen, if anything does |
| CatalogArtifact.NothingDropped | gen/catalog/compile.go:93-182 | in a catalog that compiled and validated, each rule AWS maps to a requirement is, as AWS's, on every published control that lists the requirement, and some control does |
| CatalogArtifact.NothingInvented | gen/catalog/compile.go:107-142 | every rule on a published control is either AWS's for one of the control's requirements and marked so, or bound by hand for it with its reason and marked so |
| CatalogArtifact.BindingsAppearOnce | gen/catalog/enforcement.go:164-203 | each binding made by hand is on the published control of its id, as curated, with its own reason and apart from AWS's; exactly once if and only if no other rule bound there goes by its name |
| CatalogArtifact.EveryRequirementAppears | gen/catalog/compile.go:67-206 | the published controls, in the order of their ids, are one for each requirement and no others; each has the title, the statement, the attestation and the crosswalk that the sources give its requirement, and the classes of what it carries |
| CatalogArtifact.CompiledComesBack | gen/catalog/main.go:108-134 | a compiled catalog is written as it was compiled, so that a recompile finds the written copy up to date, and a load under any options gives it back |
| CatalogArtifact.PublishedExactly | gen/catalog/compile.go:188-206 | a catalog is published if and only if the join succeeds and the sealed document is valid, and then bears the hash of its own content |
| CatalogErrors.CompileFailsExactly | gen/catalog/compile.go:52-186 | the join fails over a bad mapping key, then over the first requirement with something wrong, then over unlisted requirements, then over lost bindings, and otherwise succeeds |
| CatalogErrors.ControlFailsExactly | gen/catalog/compile.go:67-165 | a control fails over its title, its statement, the first faulty mapped rule, a rule bound twice or mapped already, the first faulty bound rule, or missing coverage, and is otherwise built |
| CatalogJoin.MappingOrderIsImmaterial | gen/catalog/compile.go:93-113 | the compiled controls do not depend on order or repetition in AWS's rule lists |
| CatalogJoin.RulesMatch | gen/catalog/compile.go:240-277 | rule conversion succeeds if and only if it does for each name, and is one to one |
| CatalogCompile.IndexAWSMapping | gen/catalog/compile.go:214-231 | re-keying, in any order of visiting, gives the one index or fails exactly when a key is malformed or two mean one requirement |
| CatalogCompile.ConfigRules | gen/catalog/compile.go:240-277 | the loop converts every name or stops at the first that cannot be |
| CatalogCompile.RuleParameters | gen/catalog/compile.go:264-273 | parameters, visited in any order, get their declared orders, or the rule is refused |
| CatalogCompile.CollectBindings | gen/catalog/compile.go:118-127 | bindings are collected with their reasons, and a rule bound twice is noticed |
| CatalogCompile.CompileControl | gen/catalog/compile.go:68-165 | one control, or the error its sources call for |
| CatalogArtifact.CompileCatalog | gen/catalog/compile.go:52-206 | the compile as it runs: the join, then the seal, then validation, with the error of the first that fails |
| CatalogCompile.JoinSources | gen/catalog/compile.go:52-186 | the join as it runs, maps visited in any order, yields what its specification says |
| CatalogCompile.CheckCuratedBindings | gen/catalog/enforcement.go:164-203 | the check passes if and only if every binding is on its control as curated with its reason |

## Left out

- ArtifactObject.Decode: starts from a decoded document; the rejection of unknown fields and of trailing content is not modelled, that of repeated keys is `DuplicateKeys`.
- CanonicalJson.PrintParses: the text that follows must not begin with a character that could continue a number, as no separator, bracket or end of text does.
- ParamFoldLimits.IndependentExactly: takes separators to be unambiguous; `ParamFoldLimits.SetsIndependentExactly` says that nothing less will do.
- RotationWriter.Dir.LoadOrNewNamed: the comparison of organization ids is left out; a file about another organization is one of the openings that fail.
- RotationRuns.RunsConserveEvidence: one writer at a time; two processes that rotate one account at once are not covered, because the existence check and the write are separate steps.
- RotationStrays.RunsHoldBesideStrays: takes every manifest to name its account; one that names none could lie on the trails of several accounts at once.
- RegionsConverge.ResumesAfterFailures: the side of each region is determined, not whether a change in progress has settled: a resumed run finds a region enabling and does not wait for it again.
- Decoding JSON text into tokens or structs: the scanner starts from the token stream; the canonical parser is the model's own and refuses escaped surrogates, which the printer never writes.
- SHA-256 is any function from text; number parsing is any function from text to a malformed, NaN or ordered number.
- The sort routine is insertion sort; only stability and the resulting order matter.
- Regular expressions of the validator are arbitrary predicates; error texts, file modes, symbolic links and size limits on files are not modelled.
- A failed file write leaves the file as it was (the program renames a finished temporary file).
- The evidence hash chain, signatures and custody transfer, beyond the refusal to append to a closed manifest; reclaim and assess write to the account's first file directly and follow no pointer.
- Pagination, sleeping and cancellation between polls, and listing calls of the services; a cancelled poll behaves as a poll that fails.
- Test hooks and seeding of the organization: they can put it in states no call reaches, and the invariants are about calls.
- The remaining checks of the region, recorder and role clients on missing configuration, and the wording of denials.
- How a catalog's own title, provenance entries and timestamp are put together: they are an input of the compile.
- Conformance packs, SCP packing, remediation, reporting and command-line handling.
