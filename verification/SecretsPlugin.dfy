/** The payload handler of the secrets plugin: scan the parts of its stage, then block, mask or allow. */
module SecretsPlugin {
  import opened Common
  import opened Json
  import opened Redactor
  import opened FieldScan

  datatype Stage = PromptPreFetch | ToolPreInvoke | ToolPostInvoke | ResourcePostFetch

  datatype Part =
    | PromptRequest(promptArguments: JsonObject)
    | ToolCall(toolArguments: JsonObject)
    | ToolResult(content: Json)
    | Resource(text: Option<string>)
    | OtherPart

  datatype PluginConfig = PluginConfig(
    fields: ScanConfig,
    redact: bool,
    blockOnDetection: bool,
    minFindingsToBlock: nat)

  datatype PartReport = PartReport(count: nat, findings: seq<Finding>, redacted: bool)

  /** A denial also carries the payload it was decided on. */
  datatype Decision =
    | Deny(count: nat, findings: seq<Finding>, denied: seq<Part>)
    | Modify(payload: seq<Part>)
    | Allow

  predicate ValidPart(part: Part) {
    match part
    case PromptRequest(arguments) => UniqueKeys(Object(arguments))
    case ToolCall(arguments) => UniqueKeys(Object(arguments))
    case ToolResult(content) => UniqueKeys(content)
    case _ => true
  }

  /** A detector that finds nothing changes nothing. */
  ghost predicate Lawful(detect: Detector) { forall text :: detect(text).0 == [] ==> detect(text).1 == text }

  // ----- The reference: every part of the stage, scanned leaf by leaf -----

  /** The scan of one part, or none if the stage does not look at it. */
  function PartScan(stage: Stage, part: Part, fields: ScanConfig, detect: Detector): Option<ScanReport> {
    match (stage, part)
    case (PromptPreFetch, PromptRequest(arguments)) => Some(Naive(Object(arguments), fields, [], true, detect))
    case (ToolPreInvoke, ToolCall(arguments)) => Some(Naive(Object(arguments), fields, [], true, detect))
    case (ToolPostInvoke, ToolResult(content)) => Some(Naive(content, fields, [], true, detect))
    case (ResourcePostFetch, Resource(Some(text))) => Some(ScanLeaf(text, true, detect))
    case _ => None
  }

  function WithContent(part: Part, content: Json): Part {
    match (part, content)
    case (PromptRequest(_), Object(entries)) => PromptRequest(entries)
    case (ToolCall(_), Object(entries)) => ToolCall(entries)
    case (ToolResult(_), _) => ToolResult(content)
    case (Resource(_), String(text)) => Resource(Some(text))
    case _ => part
  }

  /** The part with every detected secret cut out. */
  function Masked(stage: Stage, part: Part, fields: ScanConfig, detect: Detector): Part {
    match PartScan(stage, part, fields, detect)
    case None => part
    case Some(report) => WithContent(part, report.redacted)
  }

  function MaskedParts(stage: Stage, parts: seq<Part>, fields: ScanConfig, detect: Detector): (r: seq<Part>)
    ensures |r| == |parts|
  {
    seq(|parts|, i requires 0 <= i < |parts| => Masked(stage, parts[i], fields, detect))
  }

  function CountIn(stage: Stage, part: Part, fields: ScanConfig, detect: Detector): nat {
    match PartScan(stage, part, fields, detect) case None => 0 case Some(report) => report.count
  }

  function TotalCount(stage: Stage, parts: seq<Part>, fields: ScanConfig, detect: Detector): nat {
    if parts == [] then 0
    else
      TotalCount(stage, parts[..|parts| - 1], fields, detect) + CountIn(stage, parts[|parts| - 1], fields, detect)
  }

  function FindingsIn(stage: Stage, part: Part, fields: ScanConfig, detect: Detector): seq<Finding> {
    match PartScan(stage, part, fields, detect) case None => [] case Some(report) => report.findings
  }

  function AllFindings(stage: Stage, parts: seq<Part>, fields: ScanConfig, detect: Detector): seq<Finding> {
    if parts == [] then []
    else
      AllFindings(stage, parts[..|parts| - 1], fields, detect) + FindingsIn(stage, parts[|parts| - 1], fields, detect)
  }

  // ----- The count is the number of findings -----

  /** The total that decides about blocking is the number of findings that are reported. */
  lemma {:induction false} TotalIsFindings(stage: Stage, parts: seq<Part>, fields: ScanConfig, detect: Detector)
    ensures TotalCount(stage, parts, fields, detect) == |AllFindings(stage, parts, fields, detect)|
  {
    if parts != [] {
      TotalIsFindings(stage, parts[..|parts| - 1], fields, detect);
      match (stage, parts[|parts| - 1])
      case (PromptPreFetch, PromptRequest(arguments)) => CountIsFindings(Object(arguments), fields, [], true, detect);
      case (ToolPreInvoke, ToolCall(arguments)) => CountIsFindings(Object(arguments), fields, [], true, detect);
      case (ToolPostInvoke, ToolResult(content)) => CountIsFindings(content, fields, [], true, detect);
      case _ =>
    }
  }

  // ----- Counting nothing means changing nothing -----

  lemma {:induction false} CountZeroIsClean(value: Json, config: ScanConfig, path: Path, direct: bool, detect: Detector)
    requires Lawful(detect) && Naive(value, config, path, direct, detect).count == 0
    ensures Naive(value, config, path, direct, detect).redacted == value
    decreases value, 2
  {
    match value
    case Array(items) =>
      CountZeroItems(items, |items|, config, path, detect);
      assert items[..|items|] == items;
    case Object(entries) =>
      CountZeroEntries(entries, |entries|, config, path, detect);
      assert entries[..|entries|] == entries;
    case _ =>
  }

  lemma {:induction false} CountZeroItems(items: seq<Json>, n: nat, config: ScanConfig, path: Path, detect: Detector)
    requires n <= |items| && Lawful(detect) && NaiveItems(items, n, config, path, detect).count == 0
    ensures NaiveItems(items, n, config, path, detect).redacted == Array(items[..n])
    decreases Array(items), 1, n
  {
    if n > 0 {
      CountZeroItems(items, n - 1, config, path, detect);
      CountZeroIsClean(items[n - 1], config, path, false, detect);
      assert items[..n] == items[..n - 1] + [items[n - 1]];
    }
  }

  lemma {:induction false} CountZeroEntries(entries: JsonObject, n: nat, config: ScanConfig, path: Path,
                                            detect: Detector)
    requires n <= |entries| && Lawful(detect) && NaiveEntries(entries, n, config, path, detect).count == 0
    ensures NaiveEntries(entries, n, config, path, detect).redacted == Object(entries[..n])
    decreases Object(entries), 1, n
  {
    if n > 0 {
      CountZeroEntries(entries, n - 1, config, path, detect);
      var (key, value) := entries[n - 1];
      assert value == entries[n - 1].1;
      CountZeroIsClean(value, config, path + [key], false, detect);
      assert entries[..n] == entries[..n - 1] + [(key, value)];
    }
  }

  lemma CleanPartUnchanged(stage: Stage, part: Part, fields: ScanConfig, detect: Detector)
    requires Lawful(detect) && CountIn(stage, part, fields, detect) == 0
    ensures Masked(stage, part, fields, detect) == part
  {
    match (stage, part)
    case (PromptPreFetch, PromptRequest(arguments)) => CountZeroIsClean(Object(arguments), fields, [], true, detect);
    case (ToolPreInvoke, ToolCall(arguments)) => CountZeroIsClean(Object(arguments), fields, [], true, detect);
    case (ToolPostInvoke, ToolResult(content)) => CountZeroIsClean(content, fields, [], true, detect);
    case _ =>
  }

  /** The detector of the redactor is lawful, whatever the pattern engine yields. */
  lemma RedactorIsLawful(text: string, candidates: seq<Candidate>, redact: bool, replacement: string)
    requires AllValidIn(candidates, text) && Detected(text, candidates, redact, replacement).0 == []
    ensures Detected(text, candidates, redact, replacement).1 == text
  {
    SpansWithinText(text, candidates);
    if candidates != [] {
      CandidateHasSpan(candidates, candidates[0]);
    }
    NothingToRedact(text, replacement);
  }

  // ----- The handler -----

  method ScanContentPart(stage: Stage, part: Part, config: PluginConfig, detect: Detector)
      returns (report: Option<PartReport>, scanned: Part)
    requires ValidPart(part) && Lawful(detect)
    ensures report.Some? <==> PartScan(stage, part, config.fields, detect).Some?
    ensures report.Some? ==>
              && report.value.count == CountIn(stage, part, config.fields, detect)
              && report.value.findings == FindingsIn(stage, part, config.fields, detect)
    ensures report.Some? ==> report.value.redacted == (config.redact && report.value.count > 0)
    ensures scanned == if config.redact then Masked(stage, part, config.fields, detect) else part
  {
    report, scanned := None, part;
    if CountIn(stage, part, config.fields, detect) == 0 {
      CleanPartUnchanged(stage, part, config.fields, detect);
    }
    match (stage, part)
    case (PromptPreFetch, PromptRequest(arguments)) =>
      var scan := ScanJsonValue(Object(arguments), config.fields, detect);
      var redacted := config.redact && scan.count > 0;
      if redacted {
        scanned := PromptRequest(scan.redacted.entries);
      }
      report := Some(PartReport(scan.count, scan.findings, redacted));
    case (ToolPreInvoke, ToolCall(arguments)) =>
      var scan := ScanJsonValue(Object(arguments), config.fields, detect);
      var redacted := config.redact && scan.count > 0;
      if redacted {
        scanned := ToolCall(scan.redacted.entries);
      }
      report := Some(PartReport(scan.count, scan.findings, redacted));
    case (ToolPostInvoke, ToolResult(content)) =>
      var scan := ScanJsonValue(content, config.fields, detect);
      var redacted := config.redact && scan.count > 0;
      if redacted {
        scanned := ToolResult(scan.redacted);
      }
      report := Some(PartReport(scan.count, scan.findings, redacted));
    case (ResourcePostFetch, Resource(Some(text))) =>
      var (findings, redactedText) := detect(text);
      var redacted := config.redact && |findings| > 0;
      if redacted {
        scanned := Resource(Some(redactedText));
      }
      report := Some(PartReport(|findings|, findings, redacted));
    case _ =>
  }

  /** Scans the parts in place; the modified payload is there only if something was redacted. */
  method ScanPayload(stage: Stage, payload: seq<Part>, config: PluginConfig, detect: Detector)
      returns (count: nat, findings: seq<Finding>, modified: Option<seq<Part>>)
    requires (forall i | 0 <= i < |payload| :: ValidPart(payload[i])) && Lawful(detect)
    ensures findings == AllFindings(stage, payload, config.fields, detect)
    ensures count == TotalCount(stage, payload, config.fields, detect) == |findings|
    ensures modified.Some? <==> config.redact && count > 0
    ensures modified.Some? ==> modified.value == MaskedParts(stage, payload, config.fields, detect)
  {
    var parts, redactedAny := payload, false;
    count, findings := 0, [];
    for i := 0 to |parts|
      invariant |parts| == |payload| && parts[i..] == payload[i..]
      invariant count == TotalCount(stage, payload[..i], config.fields, detect)
      invariant findings == AllFindings(stage, payload[..i], config.fields, detect)
      invariant redactedAny <==> config.redact && count > 0
      invariant config.redact ==>
                  forall k | 0 <= k < i :: parts[k] == Masked(stage, payload[k], config.fields, detect)
    {
      assert parts[i] == parts[i..][0] == payload[i];
      assert payload[..i + 1][..i] == payload[..i];
      var report, scanned := ScanContentPart(stage, parts[i], config, detect);
      parts := parts[i := scanned];
      assert parts[i + 1..] == payload[i + 1..];
      if report.Some? {
        count := count + report.value.count;
        findings := findings + report.value.findings;
        if config.redact && report.value.redacted {
          redactedAny := true;
        }
      }
    }
    assert payload[..|payload|] == payload;
    TotalIsFindings(stage, payload, config.fields, detect);
    modified := if redactedAny then Some(parts) else None;
    if config.redact {
      assert parts == MaskedParts(stage, payload, config.fields, detect);
    }
  }

  predicate ShouldBlock(config: PluginConfig, count: nat) {
    config.blockOnDetection && count >= config.minFindingsToBlock
  }

  /** The payload that goes on after the decision, if one does. */
  function Forwarded(decision: Decision, payload: seq<Part>): Option<seq<Part>> {
    match decision
    case Deny(_, _, _) => None
    case Modify(modified) => Some(modified)
    case Allow => Some(payload)
  }

  lemma {:induction false} NothingCounted(stage: Stage, payload: seq<Part>, fields: ScanConfig, detect: Detector)
    requires Lawful(detect) && TotalCount(stage, payload, fields, detect) == 0
    ensures MaskedParts(stage, payload, fields, detect) == payload
  {
    if payload != [] {
      var front, last := payload[..|payload| - 1], payload[|payload| - 1];
      NothingCounted(stage, front, fields, detect);
      CleanPartUnchanged(stage, last, fields, detect);
      forall i | 0 <= i < |payload| ensures Masked(stage, payload[i], fields, detect) == payload[i] {
        if i < |front| {
          assert MaskedParts(stage, front, fields, detect)[i] == front[i];
        }
      }
    }
  }

  /** Blocking depends on the total alone; with redaction on, what is forwarded is the fully masked payload. */
  method Handle(stage: Stage, payload: seq<Part>, config: PluginConfig, detect: Detector) returns (decision: Decision)
    requires (forall i | 0 <= i < |payload| :: ValidPart(payload[i])) && Lawful(detect)
    ensures decision.Deny? <==>
              config.blockOnDetection && TotalCount(stage, payload, config.fields, detect) >= config.minFindingsToBlock
    ensures !decision.Deny? ==>
              Forwarded(decision, payload)
              == Some(if config.redact then MaskedParts(stage, payload, config.fields, detect) else payload)
    ensures decision.Deny? ==>
              && decision.findings == AllFindings(stage, payload, config.fields, detect)
              && decision.count == |decision.findings|
              && decision.denied
                 == if config.redact then MaskedParts(stage, payload, config.fields, detect) else payload
  {
    var count, findings, modified := ScanPayload(stage, payload, config, detect);
    if count == 0 {
      NothingCounted(stage, payload, config.fields, detect);
    }
    if ShouldBlock(config, count) {
      return Deny(count, findings, if modified.Some? then modified.value else payload);
    }
    if modified.Some? {
      return Modify(modified.value);
    }
    decision := Allow;
  }

  // ----- The handler with the redactor inside -----

  /** The pattern engine: the matches of each pattern in a text, in the order of the pattern map. */
  type Engine = string -> seq<PatternHits>

  ghost predicate LawfulEngine(engine: Engine) { forall text :: ValidHits(engine(text), text) }

  function CandidatesIn(text: string, engine: Engine, enabled: string -> bool): seq<Candidate> {
    if ValidHits(engine(text), text) then CandidatesOf(engine(text), enabled, text) else []
  }

  function RedactorOf(engine: Engine, enabled: string -> bool, redact: bool, redactionText: string): Detector {
    text => Detected(text, CandidatesIn(text, engine, enabled), redact, redactionText)
  }

  /** The detector as the handler uses it: a finding for each merged span, and the text redacted on demand. */
  lemma RedactorFinds(text: string, engine: Engine, enabled: string -> bool, redact: bool, redactionText: string)
    requires LawfulEngine(engine)
    ensures var (findings, kept) := RedactorOf(engine, enabled, redact, redactionText)(text);
            var cs := CandidatesOf(engine(text), enabled, text);
            && |findings| == |Spans(cs)|
            && (forall i | 0 <= i < |findings| :: findings[i].piiType == Spans(cs)[i].name)
            && kept == if redact then Reference(text, cs, redactionText, |text|) else text
  {
  }

  lemma RedactorOfIsLawful(engine: Engine, enabled: string -> bool, redact: bool, redactionText: string)
    requires LawfulEngine(engine)
    ensures Lawful(RedactorOf(engine, enabled, redact, redactionText))
  {
    var detect := RedactorOf(engine, enabled, redact, redactionText);
    forall text | detect(text).0 == [] ensures detect(text).1 == text {
      CandidatesAreValid(engine(text), enabled, text);
      RedactorIsLawful(text, CandidatesIn(text, engine, enabled), redact, redactionText);
    }
  }

  /** What a part holds, as one JSON value. */
  function Content(part: Part): Json {
    match part
    case PromptRequest(arguments) => Object(arguments)
    case ToolCall(arguments) => Object(arguments)
    case ToolResult(content) => content
    case Resource(Some(text)) => String(text)
    case _ => Null
  }

  /** A string at this place is scanned: resource text always, JSON strings by the field paths. */
  predicate IsScanned(stage: Stage, part: Part, fields: ScanConfig, location: seq<Step>) {
    match (stage, part)
    case (PromptPreFetch, PromptRequest(_)) => ShouldScan(fields, FieldOf(location), location == [])
    case (ToolPreInvoke, ToolCall(_)) => ShouldScan(fields, FieldOf(location), location == [])
    case (ToolPostInvoke, ToolResult(_)) => ShouldScan(fields, FieldOf(location), location == [])
    case (ResourcePostFetch, Resource(_)) => true
    case _ => false
  }

  /** At every place a masked part has the string it had, less its secrets if the place is scanned. */
  lemma MaskedText(stage: Stage, part: Part, fields: ScanConfig, detect: Detector, location: seq<Step>, text: string)
    requires At(Content(part), location) == Some(String(text))
    ensures At(Content(Masked(stage, part, fields, detect)), location)
            == Some(String(if IsScanned(stage, part, fields, location) then detect(text).1 else text))
  {
    assert [] + FieldOf(location) == FieldOf(location);
    match (stage, part)
    case (PromptPreFetch, PromptRequest(arguments)) => ScannedAt(Object(arguments), fields, [], true, detect, location);
    case (ToolPreInvoke, ToolCall(arguments)) => ScannedAt(Object(arguments), fields, [], true, detect, location);
    case (ToolPostInvoke, ToolResult(content)) => ScannedAt(content, fields, [], true, detect, location);
    case _ =>
  }

  /**
    The handler around the real redactor. With redaction on, every string of every part that goes on is, if its place
    is scanned, the reference redaction of its own candidates, and else as it was.
   */
  method HandleWithRedactor(stage: Stage, payload: seq<Part>, config: PluginConfig, engine: Engine,
                            enabled: string -> bool, redactionText: string)
      returns (decision: Decision)
    requires (forall i | 0 <= i < |payload| :: ValidPart(payload[i])) && LawfulEngine(engine)
    ensures decision.Deny? <==>
              && config.blockOnDetection
              && TotalCount(stage, payload, config.fields, RedactorOf(engine, enabled, config.redact, redactionText))
                 >= config.minFindingsToBlock
    ensures !decision.Deny? ==> Forwarded(decision, payload).Some? && |Forwarded(decision, payload).value| == |payload|
    ensures !decision.Deny? && !config.redact ==> Forwarded(decision, payload) == Some(payload)
    ensures !decision.Deny? && config.redact ==>
              forall i, location, text {:trigger IsString(payload[i], location, text)}
                | 0 <= i < |payload| && IsString(payload[i], location, text) ::
                IsString(Forwarded(decision, payload).value[i], location,
                         if IsScanned(stage, payload[i], config.fields, location)
                         then Reference(text, CandidatesOf(engine(text), enabled, text), redactionText, |text|)
                         else text)
  {
    var detect := RedactorOf(engine, enabled, config.redact, redactionText);
    RedactorOfIsLawful(engine, enabled, config.redact, redactionText);
    decision := Handle(stage, payload, config, detect);
    forall i, location, text | 0 <= i < |payload| && IsString(payload[i], location, text)
      ensures IsString(Masked(stage, payload[i], config.fields, detect), location,
                       if IsScanned(stage, payload[i], config.fields, location) then detect(text).1 else text)
    {
      MaskedText(stage, payload[i], config.fields, detect, location, text);
    }
  }

  /** The part has this string at this place. */
  predicate IsString(part: Part, location: seq<Step>, text: string) {
    At(Content(part), location) == Some(String(text))
  }
}
