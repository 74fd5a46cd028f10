# Verified model of the ContextForge data plane

This project models, in Dafny, the parts of the MCP data plane in which several branches,
loops or concurrent steps have to agree with a simple rule, and proves that they do.

- `IntegerHeader`, `SchemaWalk`, `HeaderConfig`, `ParamValidator` model the validation of
  `Mcp-Param-*` headers (SEP-2243): an integer parser with checked 64-bit arithmetic, proved
  against exact rationals; the walk over a tool schema that collects header annotations, proved
  against a definition by locations; the header passes towards a backend; and the validator on top.
  `LateEdit` is one concrete call.
- `Redactor`, `FieldScan`, `SecretsPlugin` model secret detection: sorting, merging and splicing
  of matches, proved against sets of positions and the connected components of the overlap
  relation; the pruned JSON scan, proved equal to the full one; and the decision to block or mask.
- `RuntimeRegistry`, `PinnedCalls`, `HookContext` model the plugin runtime: hot reload with a
  fingerprint skip, calls that pin a runtime, reference counting and release, and the context
  that the hooks of one tool call thread through a mutex.
- `ProgressTracking` models the map of progress tokens under its read/write lock.
- `CmfAdapters` models the projections of prompt, resource and tool results into the CMF form
  that plugins edit, and the write-back of the edits.
- `ConfigCache` models the expiring cache in front of Redis.

Objects whose methods update fields are classes; loops are methods proved against a
specification function or predicate. Protocols that interleave are state machines, one action per
atomic step, and their results hold for every finite run. Where both forms are given, the class
is the section run alone, and the contracts of its methods say so: the steps of the state machine,
taken in a row from any state that the object mirrors, end as the method does.

## Conventions

- A string is the sequence of its UTF-8 bytes, one `char` a byte. JSON objects are sequences of
  entries; operations that read an object from the wire require distinct keys, which the parser
  of the original guarantees.
- Library parts that cannot be seen are parameters or inputs: Base64 and UTF-8 decoding, the
  decoding of plugin documents, the building of a plugin manager, plugin hooks, Redis replies and
  clocks. A regular expression is the list of its matches, each a non-empty range of the text.
- Errors keep their category, not their text. Logging is left out.
- Header names follow the `http` crate: tokens of section 5.6.2 of RFC 9110, lower-cased, at most
  65535 bytes.

## Results that differ from a first reading

- The wiki says that a local configuration write updates the cache immediately. It does, but a
  read that fetched the older value before the write may insert it afterwards;
  `ReadsFollowIff` gives the exact condition under which that cannot happen, and
  `CachedWriteIsOvertaken` a run in which it does.
- A Redis `GET` error is reported like missing data, as the code does.
- A plugin may change arguments after the header validation. `LateEditAcceptedIff` says exactly
  when the headers sent on still fit the body; `EditedRegionIsRefused` is a call where they do not.
- The wiki promises that an edit which cannot be represented never falls back to the original
  response. Tool results do fall back; `OriginalFallsThroughIff` has the exact condition and
  `RemovedToolResultFallsThrough` the input. Nor does an error follow when a tool result cannot be
  represented: `ToolResultProjectsIff` says exactly when it is, and `SecondToolResultIsDropped` is
  an input where it is not.
- Prompt edits need not compose: `PromptEditsComposeIff` says exactly when they do, and
  `EditThenUndoLosesExtra` is the counterexample.
- The label of a finding is not always its longest match: a longer match of equal specificity
  takes over only if it is longer than the whole span merged so far. `LabelIsExact` states which
  match names the finding, `LabelIsLongestIff` when that is a longest one, and
  `LongestMatchLoses` is an input where it is not.
- Inside an unreachable part of a schema any key `x-mcp-header` counts as an annotation, also
  one that is merely the name of a property there (`NamedPropertyIsRefusedBelow`); under the
  reachable `properties` it is a name (`NamedPropertyIsAccepted`). Which keys count is the
  definition `IsAnnotation`, and `WalkDecidesAcceptance` proves the walk against it.

## Model

| member | source | states |
|---|---|---|
| `IntegerHeader.ParseExact` | crates/contextforge-data-plane-lib/src/mcp_standard_headers.rs:276-332 | Parsing returns `v` exactly for the numerals of the header grammar (sign, digits, fraction, exponent) whose exact rational value is `v`, with `v` within 2^53-1 and exponent and scale within 64 bits; both directions. |
| `IntegerHeader.PrintParse` | crates/contextforge-data-plane-lib/src/mcp_standard_headers.rs:276-332 | Parsing the decimal print of any 64-bit integer returns it if it is safe, and refuses it otherwise. |
| `IntegerHeader.MagnitudeExact` | crates/contextforge-data-plane-lib/src/mcp_standard_headers.rs:296-331 | Behind the length guard no checked 64-bit step fails: a product is rejected exactly if it exceeds 2^53-1. |
| `IntegerHeader.EvaluateExact` | crates/contextforge-data-plane-lib/src/mcp_standard_headers.rs:296-332 | The scaling cases together (drop zeroes, past the digits, append zeroes) decide whether the signed rational is the safe integer `v`. |
| `IntegerHeader.NumeralToParts` | crates/contextforge-data-plane-lib/src/mcp_standard_headers.rs:277-296 | Every numeral of the grammar is split into its own sign, whole part, fraction and exponent. |
| `IntegerHeader.PartsToNumeral` | crates/contextforge-data-plane-lib/src/mcp_standard_headers.rs:277-296 | Whatever the splitting accepts is a numeral of the grammar, so nothing else is read. |
| `IntegerHeader.ParseI64Reads` | crates/contextforge-data-plane-lib/src/mcp_standard_headers.rs:282-285 | The exponent text is read as its own signed value and refused outside 64 bits. |
| `SchemaWalk.ParamHeaderAnnotations` | crates/contextforge-data-plane-lib/src/mcp_standard_headers.rs:99-104 | Succeeds exactly if every annotation is valid, statically reachable below the root, and its name unique ignoring case; the list then holds exactly the declared annotations, with distinct header names. |
| `SchemaWalk.SchemaVisitor.VisitSchema` | crates/contextforge-data-plane-lib/src/mcp_standard_headers.rs:106-182 | The walk succeeds exactly if placement and registration do, and leaves the two collections as registering the collected annotations in order would. |
| `SchemaWalk.SchemaVisitor.VisitAnnotation` | crates/contextforge-data-plane-lib/src/mcp_standard_headers.rs:113-152 | One annotation is registered exactly if it is a valid, unseen token on a supported type. |
| `SchemaWalk.SchemaVisitor.VisitKeywords` | crates/contextforge-data-plane-lib/src/mcp_standard_headers.rs:155-182 | The loop over the keywords succeeds exactly if every one is placed right and what is collected below registers. |
| `SchemaWalk.SchemaVisitor.VisitKeyword` | crates/contextforge-data-plane-lib/src/mcp_standard_headers.rs:155-180 | One turn over the keywords: `properties` objects are followed, any other value must be clean. |
| `SchemaWalk.SchemaVisitor.VisitProperties` | crates/contextforge-data-plane-lib/src/mcp_standard_headers.rs:161-177 | The loop over a `properties` object succeeds exactly if every property is placed right and registers. |
| `SchemaWalk.SchemaVisitor.VisitProperty` | crates/contextforge-data-plane-lib/src/mcp_standard_headers.rs:161-176 | One turn over the properties: object schemas are visited with the extended path, other values must be clean. |
| `SchemaWalk.RejectUnreachableAnnotations` | crates/contextforge-data-plane-lib/src/mcp_standard_headers.rs:184-202 | Accepts exactly the values with no annotation key at any depth. |
| `SchemaWalk.WalkDecidesAcceptance` | crates/contextforge-data-plane-lib/src/mcp_standard_headers.rs:99-202 | What the walk tests on its collected list is the declarative condition on all annotated locations of the schema. |
| `SchemaWalk.CollectedExactly` | crates/contextforge-data-plane-lib/src/mcp_standard_headers.rs:106-182 | The collected list has exactly the annotations declared at some location, with their exact property paths. |
| `SchemaWalk.FoundHasLocation` | crates/contextforge-data-plane-lib/src/mcp_standard_headers.rs:106-182 | Everything collected lies at a location that alternates `properties` and a property name, and its path is the names on it. |
| `SchemaWalk.LocationIsFound` | crates/contextforge-data-plane-lib/src/mcp_standard_headers.rs:106-182 | Every annotated location of that form is collected. |
| `SchemaWalk.FoundOnce` | crates/contextforge-data-plane-lib/src/mcp_standard_headers.rs:106-182 | No annotation is collected twice. |
| `SchemaWalk.PlacedSound` | crates/contextforge-data-plane-lib/src/mcp_standard_headers.rs:155-202 | In a schema the walk accepts for placement, an annotation at any location is on a property reached through `properties` only; a property named like the keyword is none. |
| `SchemaWalk.MisplacedHasLocation` | crates/contextforge-data-plane-lib/src/mcp_standard_headers.rs:155-202 | A schema refused for placement really has an annotation in a wrong place. |
| `SchemaWalk.NamedPropertyIsAccepted` | crates/contextforge-data-plane-lib/src/mcp_standard_headers.rs:155-180 | A property named like the annotation, under the reachable `properties`, is no annotation. |
| `SchemaWalk.NamedPropertyIsRefusedBelow` | crates/contextforge-data-plane-lib/src/mcp_standard_headers.rs:178-202 | The same object below any other keyword is refused. |
| `SchemaWalk.RegisterSound` | crates/contextforge-data-plane-lib/src/mcp_standard_headers.rs:106-152 | A list that registers from empty collections has valid, distinctly named entries and yields exactly their annotations. |
| `SchemaWalk.RegisterComplete` | crates/contextforge-data-plane-lib/src/mcp_standard_headers.rs:106-152 | A list of valid, distinctly named entries registers. |
| `SchemaWalk.DeclaredTypes` | crates/contextforge-data-plane-lib/src/mcp_standard_headers.rs:134-143 | Each of the three types is declared by exactly its name. |
| `SchemaWalk.ValidAnnotationIff` | crates/contextforge-data-plane-lib/src/mcp_standard_headers.rs:113-148 | An annotation is valid exactly if it is a token short enough for a header name, on a property of one of the three types. |
| `SchemaWalk.DeclaredHeader` | crates/contextforge-data-plane-lib/src/mcp_standard_headers.rs:144-152 | The declared header is the lower-cased name behind the parameter prefix. |
| `HttpHeaders.TokenCharacters` | crates/contextforge-data-plane-lib/src/mcp_standard_headers.rs:204-210 | The token characters, by code. |
| `HttpHeaders.ParamNames` | crates/contextforge-data-plane-lib/src/mcp_standard_headers.rs:49-54 | A parameter header is one that starts with the prefix in any case. |
| `HttpHeaders.ComputedNames` | crates/contextforge-data-plane-lib/src/mcp_standard_headers.rs:38-47 | The computed headers are the three named ones, in any case, and the parameter headers. |
| `HttpHeaders.GetAllInOrder` | crates/contextforge-data-plane-lib/src/mcp_standard_headers.rs:62-64 | The values of a repeated header come in the order of its pairs. |
| `HeaderConfig.UpstreamHeaders.ApplyHeaderConfig` | crates/contextforge-data-plane-lib/src/gateway/mcp_service/initialization.rs:92-140 | The four ordered passes give each header the value of one order-free precedence formula: parameter headers, protected headers, removed, added, passed through, initial. |
| `HeaderConfig.PrecedenceCases` | crates/contextforge-data-plane-lib/src/gateway/mcp_service/initialization.rs:92-140 | Case by case: parameter headers from the last downstream value only; other protected headers stay; a removed header is gone even if added or passed through; the last valid addition beats the first downstream value; else nothing changes. |
| `HeaderConfig.ProtectedNames` | crates/contextforge-data-plane-lib/src/gateway/mcp_service/initialization.rs:142-166 | The protected headers are the sixteen named ones, in any case, and the computed ones. |
| `HeaderConfig.UpstreamHeaders.PassThrough` | crates/contextforge-data-plane-lib/src/gateway/mcp_service/initialization.rs:97-107 | Unprotected configured names take the first downstream value if there is one; everything else stays. |
| `HeaderConfig.UpstreamHeaders.ForwardParams` | crates/contextforge-data-plane-lib/src/gateway/mcp_service/initialization.rs:108-114 | Each `Mcp-Param-*` header takes its last downstream value; everything else stays. |
| `HeaderConfig.UpstreamHeaders.AddConfigured` | crates/contextforge-data-plane-lib/src/gateway/mcp_service/initialization.rs:116-126 | Unprotected valid additions overwrite; the last of several spellings wins. |
| `HeaderConfig.UpstreamHeaders.RemoveConfigured` | crates/contextforge-data-plane-lib/src/gateway/mcp_service/initialization.rs:127-133 | Exactly the unprotected configured names are gone. |
| `ParamValidator.ValidateToolParams` | crates/contextforge-data-plane-lib/src/mcp_standard_headers.rs:56-97 | Accepts exactly if the schema is acceptable and, for each declared annotation, header and non-null body value are both absent or both present with every repeated header standing for the typed value; reports the schema exactly if it is not acceptable. |
| `ParamValidator.ValidateAnnotation` | crates/contextforge-data-plane-lib/src/mcp_standard_headers.rs:65-95 | Decides one annotation, each error with its own cause: unexpected, missing, wrong type, or the first repeated value that is malformed or does not match. |
| `ParamValidator.MatchHeaderValues` | crates/contextforge-data-plane-lib/src/mcp_standard_headers.rs:79-93 | Accepts exactly if every repeated value decodes to the body value; else reports the first that does not, malformed or mismatched. |
| `ParamValidator.ValueAtPropertyPath` | crates/contextforge-data-plane-lib/src/mcp_standard_headers.rs:212-219 | Walks to exactly the value at the property path; none for an empty path or missing arguments. |
| `ParamValidator.ParameterValueExact` | crates/contextforge-data-plane-lib/src/mcp_standard_headers.rs:237-264 | A body value is taken as a parameter exactly if it has the declared type and, for integers, is an exact safe integer. |
| `ParamValidator.NumberIntegerExact` | crates/contextforge-data-plane-lib/src/mcp_standard_headers.rs:243-256 | The chain of conversions of a JSON number yields an integer exactly if the number equals it and it is safe. |
| `ParamValidator.MatchExact` | crates/contextforge-data-plane-lib/src/mcp_standard_headers.rs:266-274 | Header text matches exactly the value it denotes; integers are compared by exact numeric value. |
| `ParamValidator.BooleanHeaderIff` | crates/contextforge-data-plane-lib/src/mcp_standard_headers.rs:266-274 | A declared boolean is accepted exactly if header and argument are both absent, or the argument is true and each value is the text "true", or false and "false". |
| `ParamValidator.StringHeaderIff` | crates/contextforge-data-plane-lib/src/mcp_standard_headers.rs:266-274 | A declared string is accepted exactly if both are absent, or the argument is a string and each decoded value is that string. |
| `ParamValidator.IntegerHeaderIff` | crates/contextforge-data-plane-lib/src/mcp_standard_headers.rs:237-274 | A declared integer is accepted exactly if both are absent, or one integer within 2^53-1 is the exact value of the argument and of each decoded value. |
| `ParamValidator.DecodedIff` | crates/contextforge-data-plane-lib/src/mcp_standard_headers.rs:334-352 | A raw value decodes exactly if it is UTF-8 and either a Base64 sentinel that decodes, or no sentinel, printable, and without blanks at its ends. |
| `ParamValidator.HeadersFixBody` | crates/contextforge-data-plane-lib/src/mcp_standard_headers.rs:56-97 | Two argument objects accepted with the same headers agree at every annotated path, null counting as absent. |
| `ParamValidator.ValidationSurvivesForwarding` | crates/contextforge-data-plane-lib/src/gateway/mcp_service/initialization.rs:92-140 | What was accepted is accepted again with the upstream headers, for every header configuration and initial map without parameter headers. |
| `ParamValidator.LateEditAcceptedIff` | crates/contextforge-data-plane-lib/src/gateway/mcp_service/tools.rs:43-66 | After a plugin edit the forwarded headers are accepted with the edited arguments exactly if every annotated argument is the same parameter as before. |
| `ParamValidator.SameParameterAccepted` | crates/contextforge-data-plane-lib/src/mcp_standard_headers.rs:65-95 | An argument with the same parameter value is accepted with the same headers. |
| `LateEdit.EditedRegionIsRefused` | crates/contextforge-data-plane-lib/src/gateway/mcp_service/tools.rs:43-66 | The input that shows it: a region validated as one value, edited to another, with the header unchanged, is accepted before and refused after. |
| `LateEdit.SchemaDeclares` | crates/contextforge-data-plane-lib/src/mcp_standard_headers.rs:99-182 | The schema of that call is acceptable and declares exactly its one annotation. |
| `ParamValidator.AnnotatedHeaderIsParam` | crates/contextforge-data-plane-lib/src/mcp_standard_headers.rs:144-152 | The header of every declared annotation is a parameter header, so configuration cannot touch it. |
| `ParamValidator.ValidateAndForward` | crates/contextforge-data-plane-lib/src/gateway/mcp_service/tools.rs:43-62 | Validation followed by building the upstream headers: acceptance is decided and then kept, the headers are the precedence formula, and a refusal leaves them alone. |
| `Redactor.DetectAndRedact` | crates/plugins/cpex-secrets-detection/src/scanner.rs:39-134 | One finding per merged span, with the name and the preview (at most eight characters and an ellipsis) of the candidate declared to label it; the redacted text is the position-by-position reference: the replacement where an overlap component starts, each uncovered character in order. |
| `Redactor.PreviewIsPreview` | crates/plugins/cpex-secrets-detection/src/scanner.rs:110-118 | A preview is the text if it has at most eight characters, and else its first eight and an ellipsis. |
| `Redactor.CollectCandidates` | crates/plugins/cpex-secrets-detection/src/scanner.rs:42-72 | Collects the matches pattern by pattern; each lies in the text. |
| `Redactor.CandidatesExactly` | crates/plugins/cpex-secrets-detection/src/scanner.rs:42-72 | The candidates are exactly the matches of enabled patterns, less absent captures and captures that run on in Base64 characters. |
| `Redactor.MergeOverlaps` | crates/plugins/cpex-secrets-detection/src/scanner.rs:82-108 | The in-place merge of the last selected match computes the step-by-step merge. |
| `Redactor.MergeMerges` | crates/plugins/cpex-secrets-detection/src/scanner.rs:82-108 | For every sorted list the merged spans are separate, hold every candidate, have no inner gap, carry a most specific label, and join only linked candidates. |
| `Redactor.SpansHoldCandidates` | crates/plugins/cpex-secrets-detection/src/scanner.rs:82-108 | Spans are non-empty, in order and disjoint, each candidate lies in one, and each span has a candidate. |
| `Redactor.CandidateHasSpan` | crates/plugins/cpex-secrets-detection/src/scanner.rs:82-108 | No candidate escapes the spans. |
| `Redactor.SpansAreComponents` | crates/plugins/cpex-secrets-detection/src/scanner.rs:82-108 | Two candidates share a span exactly if a chain of overlaps connects them; touching ranges stay apart. |
| `Redactor.FindingPerComponent` | crates/plugins/cpex-secrets-detection/src/scanner.rs:82-120 | There are as many findings as connected components: as many as any choice of pairwise unlinked candidates that reaches every candidate. |
| `Redactor.LabelsAreMostSpecific` | crates/plugins/cpex-secrets-detection/src/scanner.rs:94-103 | Each span is labelled by one of its candidates with the least specificity number. |
| `Redactor.LabelIsExact` | crates/plugins/cpex-secrets-detection/src/scanner.rs:74-103 | The label is exactly that of the declared candidate: of the most specific ones the last that outreaches all ordered before it, else the first. |
| `Redactor.LabelIsUnique` | crates/plugins/cpex-secrets-detection/src/scanner.rs:74-103 | That declaration names one candidate. |
| `Redactor.LabelIsLongestIff` | crates/plugins/cpex-secrets-detection/src/scanner.rs:74-103 | The reported match is a longest of the most specific ones exactly if the first of the longest is ordered first of all, or outreaches all that is ordered before it. |
| `Redactor.LongestMatchLoses` | crates/plugins/cpex-secrets-detection/src/scanner.rs:94-103 | The input that shows it: of three equally specific matches in a row the last is the longest, and the first names the finding. |
| `Redactor.SortSorts` | crates/plugins/cpex-secrets-detection/src/scanner.rs:74-80 | Sorting orders the candidates by the comparison of the sort key. |
| `Redactor.SortOrder` | crates/plugins/cpex-secrets-detection/src/scanner.rs:74-80 | Of two sorted candidates the first starts earlier, or has the lower number, or is longer, or comes no later in byte order, in that precedence. |
| `Redactor.PatternTable` | crates/plugins/cpex-secrets-detection/src/scanner.rs:197-204 | The specificity of every pattern name; the one pattern whose capture group is reported is `base64_24`. |
| `Redactor.BoundaryCharacters` | crates/plugins/cpex-secrets-detection/src/scanner.rs:206-208 | The characters before which a capture is dropped, by code. |
| `Redactor.SortedUnique` | crates/plugins/cpex-secrets-detection/src/scanner.rs:74-80 | The sort key identifies a candidate of a text, so there is one sorted arrangement. |
| `Redactor.SpanCovers` | crates/plugins/cpex-secrets-detection/src/scanner.rs:104-107 | The merged spans cover exactly the positions that the candidates cover. |
| `Redactor.Splice` | crates/plugins/cpex-secrets-detection/src/scanner.rs:122-131 | The cursor loop writes the reference text, and the cursor never passes the next span. |
| `Redactor.RedactedLength` | crates/plugins/cpex-secrets-detection/src/scanner.rs:122-131 | The output has the length of the text, less the spans, plus one replacement for each. |
| `Redactor.NothingToRedact` | crates/plugins/cpex-secrets-detection/src/scanner.rs:122-134 | Without candidates the text is unchanged. |
| `Redactor.DetectionIgnoresOrder` | crates/plugins/cpex-secrets-detection/src/scanner.rs:42-134 | Any permutation of the patterns gives the same findings and the same text. |
| `Redactor.CandidatesOfPermutation` | crates/plugins/cpex-secrets-detection/src/scanner.rs:42-72 | Permuting the patterns permutes the candidates. |
| `FieldScan.ScanJsonValue` | crates/plugins/cpex-secrets-detection/src/scanner.rs:29-32 | At each place a string becomes its redaction exactly if it is the root, or no denied path is a prefix of its field and an allowed one is, if there are any; all else stays. The findings are those of the scanned strings in document order, the count is their number, and the pruned scan equals the full one. |
| `FieldScan.ScannedIffSelected` | crates/plugins/cpex-secrets-detection/src/config.rs:115-142 | The path rules come down to prefixes: denied prefixes exclude, allowed prefixes are needed if there are any, and a root string is always scanned. |
| `FieldScan.FindingsAreLeaves` | crates/plugins/cpex-secrets-detection/src/scanner.rs:139-191 | The findings of the full scan are those of its scanned strings, one after another. |
| `FieldScan.StringsExactly` | crates/plugins/cpex-secrets-detection/src/scanner.rs:139-191 | The places visited for findings are exactly those that hold a string. |
| `FieldScan.Scanner.ScanJsonValueInner` | crates/plugins/cpex-secrets-detection/src/scanner.rs:139-191 | The same at every node, and the mutated path is restored. |
| `FieldScan.Scanner.ScanItems` | crates/plugins/cpex-secrets-detection/src/scanner.rs:153-170 | The loop over an array accumulates the reference report; items share the path. |
| `FieldScan.Scanner.ScanEntries` | crates/plugins/cpex-secrets-detection/src/scanner.rs:171-188 | The loop over an object pushes and pops each key and accumulates the reference report. |
| `FieldScan.PruningIsSound` | crates/plugins/cpex-secrets-detection/src/config.rs:115-142 | If a path may not be traversed, no extension of it may be scanned. |
| `FieldScan.PrunedIsClean` | crates/plugins/cpex-secrets-detection/src/scanner.rs:154-156 | A pruned value contains nothing that the full scan would find. |
| `FieldScan.ScannedAt` | crates/plugins/cpex-secrets-detection/src/scanner.rs:139-191 | At every location the scan keeps the shape, redacts the scannable strings and changes nothing else. |
| `SecretsPlugin.Handle` | crates/plugins/cpex-secrets-detection/src/lib.rs:83-110 | Denies exactly if blocking is on and the number of findings reaches the threshold; what is forwarded is the fully masked payload if redaction is on, and the payload otherwise. |
| `SecretsPlugin.HandleWithRedactor` | crates/plugins/cpex-secrets-detection/src/lib.rs:83-133 | With the real redactor and redaction on, every scanned string that goes on is the reference redaction of its own candidates, every other string is as it was, and denial follows the count. |
| `SecretsPlugin.ScanPayload` | crates/plugins/cpex-secrets-detection/src/lib.rs:114-133 | Totals and findings of all parts in order; a modified payload exists exactly if redaction is on and something was found. |
| `SecretsPlugin.ScanContentPart` | crates/plugins/cpex-secrets-detection/src/lib.rs:135-185 | Only the part kind of the stage is scanned; its content is written back masked exactly if redaction is on. |
| `SecretsPlugin.MaskedText` | crates/plugins/cpex-secrets-detection/src/lib.rs:135-185 | At every place a masked part has the string it had, redacted exactly if the stage and the field paths scan it. |
| `SecretsPlugin.TotalIsFindings` | crates/plugins/cpex-secrets-detection/src/lib.rs:120-132 | The total that decides about blocking is the number of reported findings. |
| `SecretsPlugin.CountZeroIsClean` | crates/plugins/cpex-secrets-detection/src/scanner.rs:139-195 | A JSON value with no finding is returned unchanged. |
| `SecretsPlugin.NothingCounted` | crates/plugins/cpex-secrets-detection/src/lib.rs:120-132 | A payload with total zero is its own masked form. |
| `SecretsPlugin.RedactorIsLawful` | crates/plugins/cpex-secrets-detection/src/scanner.rs:122-134 | The real redactor meets the law that the handler needs: no finding, no change. |
| `SecretsPlugin.RedactorOfIsLawful` | crates/plugins/cpex-secrets-detection/src/scanner.rs:39-134 | For every pattern engine whose matches lie in the text the redactor changes nothing where it finds nothing. |
| `SecretsPlugin.RedactorFinds` | crates/plugins/cpex-secrets-detection/src/scanner.rs:39-134 | The detector that the handler uses has one finding for each merged span and redacts on demand. |
| `RuntimeRegistry.SkipRefinesRebuild` | crates/contextforge-data-plane-cpex/src/registry/mod.rs:91-134 | Over every run of writes, clears, outages and watcher ticks the fingerprint skip ends in the state that an unconditional rebuild at every tick gives, and the fingerprint stays in step. |
| `RuntimeRegistry.FailureHeals` | crates/contextforge-data-plane-cpex/src/registry/mod.rs:99-106 | Whatever happened before, the next tick over a valid document ends active and remembers its bytes. |
| `RuntimeRegistry.RebuiltIff` | crates/contextforge-data-plane-cpex/src/registry/mod.rs:121-150 | A read gives an active runtime exactly if a document is there, decodes, has version 1, asks for nothing unsupported, and its manager starts; the runtime then has exactly the hooks that the document lists. |
| `RuntimeRegistry.RebuildErrors` | crates/contextforge-data-plane-cpex/src/registry/mod.rs:121-150 | Each way to fail has its own error, in the order of the code. |
| `RuntimeRegistry.SupportedIff` | crates/contextforge-data-plane-cpex/src/runtime.rs:164-186 | Supported documents use none of the six excluded settings, no conditions, and only the six hooks. |
| `RuntimeRegistry.SkippingTickRebuilds` | crates/contextforge-data-plane-cpex/src/registry/mod.rs:112-134 | One tick that starts in step gives the rebuilt state and the bytes it was built from, or none after a failure. |
| `RuntimeRegistry.CpexRuntimeRegistry.ReloadRuntime` | crates/contextforge-data-plane-cpex/src/registry/mod.rs:112-134 | A reload in step ends as a rebuild does; failures fail closed; only an equal fingerprint leaves the runtime alone. |
| `RuntimeRegistry.CpexRuntimeRegistry.TryReload` | crates/contextforge-data-plane-cpex/src/registry/mod.rs:121-129 | The fallible part: applied bytes, an exact skip, or the error a rebuild would meet. |
| `RuntimeRegistry.CpexRuntimeRegistry.ApplyRuntimeConfig` | crates/contextforge-data-plane-cpex/src/registry/mod.rs:136-151 | Installs the default or the newly built runtime; an error leaves the runtime in place. |
| `RuntimeRegistry.CpexRuntimeRegistry.Initialize` | crates/contextforge-data-plane-cpex/src/registry/mod.rs:158-161 | The first reload decides; the started flag never goes back and a started registry hands out no watcher, so there is at most one, and it starts in step; without a store nothing happens. |
| `RuntimeRegistry.CpexRuntimeRegistry.Current` | crates/contextforge-data-plane-cpex/src/registry/mod.rs:165-178 | While the watcher is in step, a call is refused exactly if no bytes are remembered, and is otherwise served by what a rebuild from the remembered bytes gives. |
| `RuntimeRegistry.ConfigWatcher.Tick` | crates/contextforge-data-plane-cpex/src/registry/mod.rs:94-107 | Each turn of the loop keeps the fingerprint in step and ends where a rebuild would. |
| `PinnedCalls.OneRuntimeOneId` | crates/contextforge-data-plane-cpex/src/runtime.rs:66-118 | In every run all hooks of a call run on one runtime with one correlation id that no other call shares, for up to 2^64 calls. |
| `PinnedCalls.PostRunsIffDeclared` | crates/contextforge-data-plane-cpex/src/runtime.rs:74-94 | An answered call ran its declared pre hook first, and its post hook once exactly if its runtime declared it. |
| `PinnedCalls.HooksRunIffListed` | crates/contextforge-data-plane-cpex/src/runtime.rs:49-64 | From document to call: an answered call ran its post hook once if some plugin of the document behind its runtime lists it and never otherwise, and a pre hook ran first exactly if some plugin lists it. |
| `PinnedCalls.RefusedCallStops` | crates/contextforge-data-plane-cpex/src/runtime.rs:78-83 | A declared pre hook that refuses ends its call for good: in every later state it is abandoned, untracked, and has run nothing else. |
| `PinnedCalls.OnlyAcceptedCallsGoOn` | crates/contextforge-data-plane-cpex/src/runtime.rs:78-94 | Whatever waits, is tracked, notifies or is answered had its declared pre hook accept it. |
| `PinnedCalls.StartWalks` | crates/contextforge-data-plane-cpex/src/runtime.rs:66-95 | An undisturbed start: an id if any hook is declared, the pre hook exactly if declared, and call state exactly for a declared post hook. |
| `PinnedCalls.WaitingCallWalks` | crates/contextforge-data-plane-cpex/src/tools/mod.rs:135-153 | An undisturbed call with one notification runs the hook on it, if it is a tool call, and then the post hook. |
| `PinnedCalls.NotificationsIff` | crates/contextforge-data-plane-lib/src/gateway/backend_client.rs:55-72 | A notification may begin exactly while the map has the call, and its handler may outlive that; a tool call answers only when it is no longer tracked. |
| `PinnedCalls.SelectedIff` | crates/contextforge-data-plane-cpex/src/registry/mod.rs:165-178 | A call starts exactly while there is a current runtime, and gets that one. |
| `PinnedCalls.ReloadSwaps` | crates/contextforge-data-plane-cpex/src/registry/mod.rs:136-155 | A swap installs the new runtime, a failure leaves none, and neither touches a call. |
| `PinnedCalls.IdsCountUp` | crates/contextforge-data-plane-cpex/src/runtime.rs:46-46 | Ids count up from one and wrap around only after 2^64 of them. |
| `PinnedCalls.CallKeepsItsRuntime` | crates/contextforge-data-plane-cpex/src/runtime.rs:37-44 | No reload or failure changes the runtime, or the declared hooks, of a call already started. |
| `PinnedCalls.ReleasedExactly` | crates/contextforge-data-plane-cpex/src/runtime.rs:146-158 | A runtime is released once, and exactly when it is neither current nor held by a call, by a call state left in the in-flight map, or by a notification handler. |
| `PinnedCalls.RunKeepsInv` | crates/contextforge-data-plane-cpex/src/registry/mod.rs:136-178 | Every interleaving of installs, failures, selections and call steps keeps counts, releases, ids, log and hook traces right. |
| `PinnedCalls.CallNextFits` | crates/contextforge-data-plane-cpex/src/runtime.rs:66-143 | Each step of a call keeps its hook trace in agreement with the hooks its runtime declared and with what its pre hook answered. |
| `PinnedCalls.SetCallKeeps` | crates/contextforge-data-plane-cpex/src/runtime.rs:39-44 | When a call stops pinning, exactly one reference goes, and the runtime is released if it was the last. |
| `PinnedCalls.DropCurrentKeeps` | crates/contextforge-data-plane-cpex/src/registry/mod.rs:146-155 | Swapping the runtime out drops the registry's reference and releases the old runtime only if no call holds it. |
| `HookContext.ContextIsThreaded` | crates/contextforge-data-plane-cpex/src/tools/mod.rs:135-153 | In every interleaving of notifications and the response, each hook gets the context left by the last earlier hook that was not denied, starting from the pre hook's. |
| `HookContext.WhatMayHappen` | crates/contextforge-data-plane-cpex/src/tools/mod.rs:135-153 | The mutex has one holder, which may leave at any point, with or without a hook run. |
| `HookContext.CallState.Invoke` | crates/contextforge-data-plane-cpex/src/runtime.rs:129-136 | Runs the hook on the current context and stores the new one unless denied; a failed projection changes nothing; the steps of an uninterrupted task in the protocol do the same. |
| `HookContext.CallState.After` | crates/contextforge-data-plane-cpex/src/runtime.rs:121-127 | A denial is an error and leaves the context; otherwise the context moves on and an edit is applied or refused. |
| `HookContext.CallState.AfterStreamEvent` | crates/contextforge-data-plane-cpex/src/tools/mod.rs:141-152 | A denied notification is dropped and leaves the context; otherwise as for the response. |
| `HookContext.NoLostUpdateSnoc` | crates/contextforge-data-plane-cpex/src/runtime.rs:132-134 | One more hook continues the thread: a denied one passes on the context it was given. |
| `ProgressTracking.LiveCallIsFound` | crates/contextforge-data-plane-lib/src/gateway/backend_client.rs:38-72 | In every interleaving a lookup for a call that was enqueued and not yet stopped finds that call, even if the notification arrives before the mapping is inserted. |
| `ProgressTracking.LockIsGivenUp` | crates/contextforge-data-plane-lib/src/gateway/backend_client.rs:38-72 | In every reachable state the holder of the lock has a next step towards giving it up, and so has every reader: no interleaving leaves the lock stuck. |
| `ProgressTracking.WhatMayHappen` | crates/contextforge-data-plane-lib/src/gateway/backend_client.rs:38-72 | Which interleavings there are: notifications with any token at any time, readers that exclude only writers, sends that fail and starts that are dropped. |
| `ProgressTracking.OtherTokensAreNotFound` | crates/contextforge-data-plane-lib/src/gateway/backend_client.rs:63-72 | A token that no live call owns finds nothing. |
| `ProgressTracking.ForwardedToOwner` | crates/contextforge-data-plane-lib/src/gateway/backend_client.rs:104-121 | A forwarded notification goes to the one call that owns its token, under that call's downstream token. |
| `ProgressTracking.EndedCallsLeaveNothing` | crates/contextforge-data-plane-lib/src/gateway/mcp_service/tools.rs:67-75 | Only calls that have not ended are in the map; once all have ended, or failed to start, it is empty. |
| `ProgressTracking.RunKeepsInv` | crates/contextforge-data-plane-lib/src/gateway/backend_client.rs:38-72 | Every step keeps the lock exclusive, the tokens unique, and the map in agreement with the calls. |
| `ProgressTracking.GatewayBackendClient.StartToolCall` | crates/contextforge-data-plane-lib/src/gateway/backend_client.rs:38-61 | In every unlocked state of the protocol the steps of the start, in a row, end with this handle and map: tracked exactly if the caller asked for progress and the send succeeded. |
| `ProgressTracking.GatewayBackendClient.StopTrackingToolCall` | crates/contextforge-data-plane-lib/src/gateway/backend_client.rs:63-67 | The steps of stopping a finished call, in a row, end with this map, and release the lock. |
| `ProgressTracking.GatewayBackendClient.OnProgress` | crates/contextforge-data-plane-lib/src/gateway/backend_client.rs:104-121 | Forwarded exactly if the token is known and the hook lets it pass, under the token of the call it belongs to; the steps of the notification end alike. |
| `ProgressTracking.GatewayBackendClient.CallTool` | crates/contextforge-data-plane-lib/src/gateway/mcp_service/tools.rs:67-82 | A whole call, with its failures: nothing stays in the map, a failed send ends it, the response comes back after tracking has stopped; the steps of the protocol, in a row, end alike. |
| `ProgressTracking.StartsAlone` | crates/contextforge-data-plane-lib/src/gateway/backend_client.rs:38-61 | Start, lock, enqueue, insert and unlock without interruption leave the lock free, the call running or failed, and the mapping there exactly for a tracked and sent call. |
| `CmfAdapters.UneditedPromptIsKept` | crates/contextforge-data-plane-cpex/src/prompts/mod.rs:58-125 | Writing back the unedited projection returns the original, with all that CMF cannot carry. |
| `CmfAdapters.WrittenPromptProjects` | crates/contextforge-data-plane-cpex/src/prompts/mod.rs:91-125 | A successful write-back projects to the plugin's prompt result, and keeps everything besides the messages. |
| `CmfAdapters.PromptWriteIsStable` | crates/contextforge-data-plane-cpex/src/prompts/mod.rs:91-125 | Writing the same payload again changes nothing. |
| `CmfAdapters.PromptEditsComposeIff` | crates/contextforge-data-plane-cpex/src/prompts/mod.rs:91-125 | Two edits in a row amount to the second exactly if the second cannot be written at all, or every message whose edit it undoes is plain (CMF carries all of it: no annotations, `_meta`, bytes or further link fields). |
| `CmfAdapters.EditsComposeIff` | crates/contextforge-data-plane-cpex/src/prompts/mod.rs:108-122 | The same for one message: exactly if the second edit does not undo the first, or the original is plain. |
| `CmfAdapters.EditThenUndoLosesExtra` | crates/contextforge-data-plane-cpex/src/prompts/mod.rs:108-122 | The input that shows it: an edited and then restored text block has lost its annotations, while restoring alone keeps them. |
| `CmfAdapters.PlainIffRebuilt` | crates/contextforge-data-plane-cpex/src/prompts/mod.rs:127-233 | A message survives projection and rebuilding exactly if it is plain. |
| `CmfAdapters.ProjectedBlocks` | crates/contextforge-data-plane-cpex/src/prompts/mod.rs:139-196 | Each block as CMF shows it; embedded bytes by address and type only. |
| `CmfAdapters.ProjectedMessage` | crates/contextforge-data-plane-cpex/src/prompts/mod.rs:127-137 | A message is shown with its role and its one part, if it has one that CMF knows. |
| `CmfAdapters.RebuiltBlocks` | crates/contextforge-data-plane-cpex/src/prompts/mod.rs:200-230 | Exactly text, inline media with a type, text resources and named references can become a block, and with which fields. |
| `CmfAdapters.RebuiltMessage` | crates/contextforge-data-plane-cpex/src/prompts/mod.rs:204-233 | Exactly a user or assistant message with one such part can become an MCP message. |
| `CmfAdapters.Envelopes` | crates/contextforge-data-plane-cpex/src/prompts/mod.rs:22-75 | The envelope of each payload that plugins get: version, role, ids, and the parts. |
| `CmfAdapters.OnlyPromptResultIff` | crates/contextforge-data-plane-cpex/src/prompts/mod.rs:77-81 | A payload has a prompt result exactly if one of its parts, and no other, is one. |
| `CmfAdapters.WrittenIff` | crates/contextforge-data-plane-cpex/src/prompts/mod.rs:91-125 | Write-back succeeds exactly if only messages were edited and each edit is none, or the projection of an MCP message that CMF carries. |
| `CmfAdapters.WrittenIffExpressible` | crates/contextforge-data-plane-cpex/src/prompts/mod.rs:108-122 | For one message: written exactly if it can be expressed, and then it projects to the edit. |
| `CmfAdapters.RebuildsCarried` | crates/contextforge-data-plane-cpex/src/prompts/mod.rs:204-233 | Rebuilding the projection of a carried message gives a message with the same projection. |
| `CmfAdapters.PromptResultResponse` | crates/contextforge-data-plane-cpex/src/prompts/mod.rs:91-125 | The loop that replaces messages in place computes the write-back, and refuses as a whole. |
| `CmfAdapters.ApplyPromptPayload` | crates/contextforge-data-plane-cpex/src/prompts/mod.rs:277-283 | A rejection by the plugin, and nothing else, gives its message as an error; otherwise the edit is applied exactly if it can be written back, and refused if not. |
| `CmfAdapters.PromptRequestRoundTrip` | crates/contextforge-data-plane-cpex/src/prompts/mod.rs:22-56 | An unedited prompt request leaves the arguments alone, and edited arguments are read back as they are. |
| `CmfAdapters.PromptRequestArgumentsIff` | crates/contextforge-data-plane-cpex/src/prompts/mod.rs:41-56 | Edited arguments are taken exactly from a payload whose one prompt request still names this request, prompt and backend. |
| `CmfAdapters.RoutedRequest.ApplyModified` | crates/contextforge-data-plane-cpex/src/hooks.rs:13-25 | The request ends with the modified arguments, and is untouched exactly if they say the same as before. |
| `CmfAdapters.ResourceResultResponse` | crates/contextforge-data-plane-cpex/src/resources/mod.rs:65-109 | Succeeds exactly if every item can be written back; the result is the original with each item written. |
| `CmfAdapters.UneditedContentsKept` | crates/contextforge-data-plane-cpex/src/resources/mod.rs:65-109 | An unedited item comes back exactly, down to its Base64 wire form. |
| `CmfAdapters.WrittenContentsProject` | crates/contextforge-data-plane-cpex/src/resources/mod.rs:44-109 | A written item keeps its `_meta` and projects to the edited uri, type and content, text before bytes. |
| `CmfAdapters.WrittenResourceProjects` | crates/contextforge-data-plane-cpex/src/resources/mod.rs:33-109 | A written result projects again, item by item, to the edited payload as CMF keeps it. |
| `CmfAdapters.UneditedResourceResult` | crates/contextforge-data-plane-cpex/src/resources/mod.rs:33-109 | The whole round trip of an unedited result is the identity whenever the projection exists. |
| `CmfAdapters.OriginalFallsThroughIff` | crates/contextforge-data-plane-cpex/src/tools/mod.rs:72-89 | The backend's response goes out untouched exactly if the modified payload has neither a tool result nor text. |
| `CmfAdapters.OriginalIsReplacedIff` | crates/contextforge-data-plane-cpex/src/tools/mod.rs:72-89 | The result is independent of the backend's response exactly if the modified payload has a tool result. |
| `CmfAdapters.RemovedToolResultFallsThrough` | crates/contextforge-data-plane-cpex/src/tools/mod.rs:72-89 | The input that shows the fallback: a plugin that removes the tool result gets the original sent on. |
| `CmfAdapters.UneditedToolResult` | crates/contextforge-data-plane-cpex/src/tools/mod.rs:37-89 | Writing back the unedited projection only makes the error flag explicit, so it is the identity exactly if the flag was present. |
| `CmfAdapters.ToolResultProjectsIff` | crates/contextforge-data-plane-cpex/src/tools/mod.rs:37-102 | What is written for a tool result projects back to the plugin's payload exactly if the payload is one tool result, under the name and id of the call, that encodes an MCP result with the same error flag. |
| `CmfAdapters.SecondToolResultIsDropped` | crates/contextforge-data-plane-cpex/src/tools/mod.rs:72-81 | The input that shows the loss: of two tool results in the payload only the first has any effect, and there is no error. |
| `CmfAdapters.FirstToolResult` | crates/contextforge-data-plane-cpex/src/tools/mod.rs:72-74 | Of several tool results the first counts. |
| `CmfAdapters.ToolResultResponse` | crates/contextforge-data-plane-cpex/src/tools/mod.rs:72-102 | With a tool result its content comes first and its flag holds, an undecodable text becomes the content; without one the response stays; the text of the payload goes last. |
| `ConfigCache.ReturnedValueIsRecent` | crates/contextforge-data-plane-lib/src/config_stores/redis_store.rs:50-114 | In every interleaving a returned value was in Redis after the call began and no later than its last step, or less than the expiry plus one access-to-insertion delay before it finished; hits do not extend that. |
| `ConfigCache.UncachedValueIsCurrent` | crates/contextforge-data-plane-lib/src/config_stores/redis_store.rs:41-44 | With zero expiry every returned value was in Redis after its call began and no later than its last step. |
| `ConfigCache.WithdrawnConfigIsRefused` | crates/contextforge-data-plane-lib/src/config_stores/redis_store.rs:50-114 | A call that begins after a configuration has been withdrawn for the expiry plus one delay gets none, if it stays withdrawn until the call is done. |
| `ConfigCache.CacheAnswersIff` | crates/contextforge-data-plane-lib/src/config_stores/redis_store.rs:56-70 | In every run a lookup is answered from the cache exactly if an entry was inserted less than the expiry ago, with that entry, which stays; else Redis is asked. |
| `ConfigCache.OthersAct` | crates/contextforge-data-plane-lib/src/config_stores/redis_store.rs:50-152 | Time, other writers and evictions act in every state and touch nothing else. |
| `ConfigCache.FinishingStep` | crates/contextforge-data-plane-lib/src/config_stores/redis_store.rs:50-152 | Every finished operation finished at one step of the run, at the time it records, and has not changed since. |
| `ConfigCache.ReadsFollowIff` | crates/contextforge-data-plane-lib/src/config_stores/redis_store.rs:115-152 | Later reads see a cached write or something newer in every continuation exactly if no older value is in flight when it is cached. |
| `ConfigCache.ReadsFollowTheWrite` | crates/contextforge-data-plane-lib/src/config_stores/redis_store.rs:115-152 | The sufficient half: with nothing older cached or in flight no later read is older. |
| `ConfigCache.OlderValueIsServedAgain` | crates/contextforge-data-plane-lib/src/config_stores/redis_store.rs:105-112 | The necessary half: an older value in flight can be inserted over the write and served to a new read. |
| `ConfigCache.CachedWriteIsOvertaken` | crates/contextforge-data-plane-lib/src/config_stores/redis_store.rs:105-150 | The run that shows it: a get reads an older value, a set writes and caches a newer one, the get inserts, and a read begun after all that returns the older value. |
| `ConfigCache.RunKeepsInv` | crates/contextforge-data-plane-lib/src/config_stores/redis_store.rs:50-152 | Every cached, held or returned value was in Redis at the recorded state, and cached entries were inserted within the delay. |
| `ConfigCache.RedisStore.GetConfig` | crates/contextforge-data-plane-lib/src/config_stores/redis_store.rs:50-114 | An entry inserted less than the expiry ago is returned whatever Redis does, and stays; else Redis decides, error by error, and only a decoded value is cached. In every state of the protocol the steps of one get, in a row, end the same. |
| `ConfigCache.RedisStore.SetConfig` | crates/contextforge-data-plane-lib/src/config_stores/redis_store.rs:115-152 | In every state of the protocol the steps of one set, in a row, end with this result, this value in Redis and this cache. |
| `ConfigCache.HitFits` | crates/contextforge-data-plane-lib/src/config_stores/mod.rs:44-52 | A value returned by a lookup was in Redis less than the expiry plus one access-to-insertion delay before, or while the call ran. |

## Left out

- Regular expressions and the concrete patterns: matches are inputs; their order inside one pattern is the list's.
- The library sort is modelled as an insertion sort on values, since the original calls the standard library.
- Redactor.PreviewIsPreview: a character is a byte that does not continue another; that a text is valid UTF-8 is not used.
- SchemaWalk.SchemaVisitor.VisitSchema: the two nested loops of the original are methods of their own, and so is each turn; the paths built for error messages are left out.
- HeaderConfig.UpstreamHeaders.ApplyHeaderConfig: the passes of the one original function are separate methods; hash maps of configured additions are lists in any order.
- HeaderConfig: trace and authorization headers, which connecting to a backend adds around these passes, are not modelled.
- RuntimeRegistry.SkipRefinesRebuild: holds for runs in which the watcher is the only writer after initialization; manual reloads and configuration pushes beside it do not update its fingerprint.
- RuntimeRegistry.SkipRefinesRebuild: a tick reads the store once and is one step; building a runtime is a function of the bytes.
- PinnedCalls.OneRuntimeOneId: needs fewer than 2^64 calls, since the 64-bit counter wraps around.
- PinnedCalls: a release is the drop of the last reference; the spawned shutdown of the plugin manager is not modelled.
- PinnedCalls: arguments, payloads and contexts of hooks are not part of the pinning state machine; HookContext has the contexts.
- ProgressTracking.LiveCallIsFound: assumes that generated tokens are fresh and that a backend's notification can be any token at any time; RMCP transport and cancellation messages are not modelled.
- ProgressTracking: that every started call is eventually stopped is not claimed; a dropped request future leaves its mapping, as in the original.
- HookContext: payload conversions are opaque functions; those of tool results are in CmfAdapters.
- PinnedCalls.ReleasedExactly: when the client of a backend connection drops its in-flight map is left open: the mapping of an abandoned call may go at any later step.
- CmfAdapters: equality of serialized CMF messages is structural equality; fields that CMF carries along are grouped into one opaque value.
- CmfAdapters.WrittenResourceProjects: assumes that Base64 decoding undoes encoding (section 4 of RFC 4648).
- CmfAdapters.UneditedToolResult: assumes that decoding an encoded tool result gives it back, that a message without text parts has no text, and that a result around a structured value has the flag it was given; all are library steps.
- CmfAdapters: rewriting the URI of a resource request is one branch and left out.
- RuntimeRegistry.CpexRuntimeRegistry.SetRuntimeFailed: an assignment; what it means is in the contract of ReloadRuntime.
- SecretsPlugin: reading the plugin configuration, metrics and the sanitized form of findings in a denial are left out.
- FieldScan: parsing of dotted field paths is left out.
- ConfigCache.ReturnedValueIsRecent: the LRU order is modelled by evictions at any step; the MessagePack encoding of keys is taken to be one to one.
- ConfigCache: a Redis write that reports an error although it took effect is a write by another process.
- Routing, authentication, header budgets, virtual hosts, listing endpoints, telemetry and startup are left out: each is settled by reading one function.
