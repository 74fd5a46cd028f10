/** The recursive scan of a JSON value, pruned by allowed and denied field paths. */
module FieldScan {
  import opened Common
  import opened Json
  import opened Redactor

  type Path = seq<string>

  datatype ScanConfig = ScanConfig(allowlist: seq<Path>, denylist: seq<Path>)

  /** What detection makes of one text: its findings and the text to keep. */
  type Detector = string -> (seq<Finding>, string)

  datatype ScanReport = ScanReport(count: nat, redacted: Json, findings: seq<Finding>)

  // ----- Field paths -----

  predicate PathStartsWith(path: Path, prefix: Path) {
    |path| >= |prefix| && forall i | 0 <= i < |prefix| :: path[i] == prefix[i]
  }

  predicate MatchesPathOrDescendant(field: Path, path: Path) { PathStartsWith(path, field) }

  predicate CanBeReachedFrom(field: Path, path: Path) { PathStartsWith(field, path) }

  predicate PathIsDenied(config: ScanConfig, path: Path) {
    exists i | 0 <= i < |config.denylist| :: MatchesPathOrDescendant(config.denylist[i], path)
  }

  predicate ShouldScan(config: ScanConfig, path: Path, directScalarRoot: bool) {
    if directScalarRoot && path == [] then true
    else if PathIsDenied(config, path) then false
    else
      || config.allowlist == []
      || exists i | 0 <= i < |config.allowlist| :: MatchesPathOrDescendant(config.allowlist[i], path)
  }

  predicate ShouldTraverse(config: ScanConfig, path: Path) {
    if path == [] then true
    else if PathIsDenied(config, path) then false
    else
      || config.allowlist == []
      || exists i | 0 <= i < |config.allowlist| ::
           MatchesPathOrDescendant(config.allowlist[i], path) || CanBeReachedFrom(config.allowlist[i], path)
  }

  /** Refusing to traverse a path loses nothing: no extension of it may be scanned. */
  lemma PruningIsSound(config: ScanConfig, path: Path, below: Path)
    requires !ShouldTraverse(config, path)
    ensures !ShouldScan(config, path + below, false)
  {
    if PathIsDenied(config, path) {
      var i :| 0 <= i < |config.denylist| && MatchesPathOrDescendant(config.denylist[i], path);
      assert MatchesPathOrDescendant(config.denylist[i], path + below);
    } else {
      forall i | 0 <= i < |config.allowlist| ensures !MatchesPathOrDescendant(config.allowlist[i], path + below) {
      }
    }
  }

  // ----- The reference: visit every string leaf -----

  function ScanLeaf(text: string, scannable: bool, detect: Detector): ScanReport {
    if scannable then
      var (findings, redacted) := detect(text);
      ScanReport(|findings|, String(redacted), findings)
    else ScanReport(0, String(text), [])
  }

  function Naive(value: Json, config: ScanConfig, path: Path, direct: bool, detect: Detector): ScanReport
    decreases value, 2
  {
    match value
    case String(text) => ScanLeaf(text, ShouldScan(config, path, direct), detect)
    case Array(items) => NaiveItems(items, |items|, config, path, detect)
    case Object(entries) => NaiveEntries(entries, |entries|, config, path, detect)
    case _ => ScanReport(0, value, [])
  }

  function NaiveItems(items: seq<Json>, n: nat, config: ScanConfig, path: Path, detect: Detector): (r: ScanReport)
    requires n <= |items|
    ensures r.redacted.Array? && |r.redacted.items| == n
    decreases Array(items), 1, n
  {
    if n == 0 then ScanReport(0, Array([]), [])
    else
      var front := NaiveItems(items, n - 1, config, path, detect);
      var child := Naive(items[n - 1], config, path, false, detect);
      ScanReport(front.count + child.count, Array(front.redacted.items + [child.redacted]),
                 front.findings + child.findings)
  }

  function NaiveEntries(entries: JsonObject, n: nat, config: ScanConfig, path: Path, detect: Detector): (r: ScanReport)
    requires n <= |entries|
    ensures r.redacted.Object? && |r.redacted.entries| == n
    ensures forall i | 0 <= i < n :: r.redacted.entries[i].0 == entries[i].0
    decreases Object(entries), 1, n
  {
    if n == 0 then ScanReport(0, Object([]), [])
    else
      var front := NaiveEntries(entries, n - 1, config, path, detect);
      var (key, value) := entries[n - 1];
      var child := Naive(value, config, path + [key], false, detect);
      ScanReport(front.count + child.count, Object(front.redacted.entries + [(key, child.redacted)]),
                 front.findings + child.findings)
  }

  // ----- Pruning agrees with the reference -----

  ghost predicate NothingBelow(config: ScanConfig, path: Path) {
    forall below :: !ShouldScan(config, path + below, false)
  }

  lemma NothingFurther(config: ScanConfig, path: Path, key: string)
    requires NothingBelow(config, path)
    ensures NothingBelow(config, path + [key])
  {
    forall below ensures !ShouldScan(config, path + [key] + below, false) {
      assert path + [key] + below == path + ([key] + below);
    }
  }

  lemma {:induction false} NaiveIsClean(value: Json, config: ScanConfig, path: Path, detect: Detector)
    requires NothingBelow(config, path)
    ensures Naive(value, config, path, false, detect) == ScanReport(0, value, [])
    decreases value, 2
  {
    match value
    case String(text) =>
      assert path + [] == path;
      assert !ShouldScan(config, path + [], false);
    case Array(items) =>
      NaiveItemsClean(items, |items|, config, path, detect);
      assert items[..|items|] == items;
    case Object(entries) =>
      NaiveEntriesClean(entries, |entries|, config, path, detect);
      assert entries[..|entries|] == entries;
    case _ =>
  }

  lemma {:induction false} NaiveItemsClean(items: seq<Json>, n: nat, config: ScanConfig, path: Path, detect: Detector)
    requires n <= |items| && NothingBelow(config, path)
    ensures NaiveItems(items, n, config, path, detect) == ScanReport(0, Array(items[..n]), [])
    decreases Array(items), 1, n
  {
    if n > 0 {
      NaiveItemsClean(items, n - 1, config, path, detect);
      NaiveIsClean(items[n - 1], config, path, detect);
      assert items[..n] == items[..n - 1] + [items[n - 1]];
    }
  }

  lemma {:induction false} NaiveEntriesClean(entries: JsonObject, n: nat, config: ScanConfig, path: Path,
                                            detect: Detector)
    requires n <= |entries| && NothingBelow(config, path)
    ensures NaiveEntries(entries, n, config, path, detect) == ScanReport(0, Object(entries[..n]), [])
    decreases Object(entries), 1, n
  {
    if n > 0 {
      NaiveEntriesClean(entries, n - 1, config, path, detect);
      NothingFurther(config, path, entries[n - 1].0);
      var (key, value) := entries[n - 1];
      assert value == entries[n - 1].1;
      NaiveIsClean(value, config, path + [key], detect);
      assert entries[..n] == entries[..n - 1] + [(key, value)];
    }
  }

  lemma PrunedIsClean(value: Json, config: ScanConfig, path: Path, detect: Detector)
    requires !ShouldTraverse(config, path)
    ensures Naive(value, config, path, false, detect) == ScanReport(0, value, [])
  {
    forall below ensures !ShouldScan(config, path + below, false) {
      PruningIsSound(config, path, below);
    }
    NaiveIsClean(value, config, path, detect);
  }

  /** The scanner, with the path that it extends and shortens as it goes. */
  class Scanner {
    const config: ScanConfig
    const detect: Detector
    var path: Path

    constructor (config: ScanConfig, detect: Detector)
      ensures this.config == config && this.detect == detect && path == []
    {
      this.config, this.detect, path := config, detect, [];
    }

    method ScanJsonValueInner(value: Json, direct: bool) returns (r: ScanReport)
      requires UniqueKeys(value) && (direct ==> path == [])
      modifies this`path
      ensures path == old(path)
      ensures r == Naive(value, config, path, direct, detect)
      decreases value, 2
    {
      match value
      case String(text) =>
        var scannable := ShouldScan(config, path, direct);
        if !scannable {
          return ScanReport(0, value, []);
        }
        var (findings, redacted) := detect(text);
        r := ScanReport(|findings|, String(redacted), findings);
      case Array(items) =>
        var traverse := ShouldTraverse(config, path);
        if !traverse {
          PrunedIsClean(value, config, path, detect);
          return ScanReport(0, value, []);
        }
        r := ScanItems(items);
      case Object(entries) =>
        var traverse := ShouldTraverse(config, path);
        if !traverse {
          PrunedIsClean(value, config, path, detect);
          return ScanReport(0, value, []);
        }
        r := ScanEntries(entries);
      case _ =>
        r := ScanReport(0, value, []);
    }

    method ScanItems(items: seq<Json>) returns (r: ScanReport)
      requires UniqueKeys(Array(items))
      modifies this`path
      ensures path == old(path)
      ensures r == NaiveItems(items, |items|, config, path, detect)
      decreases Array(items), 1
    {
      var total: nat, redactedItems, findings: seq<Finding> := 0, [], [];
      for i := 0 to |items|
        invariant path == old(path)
        invariant ScanReport(total, Array(redactedItems), findings) == NaiveItems(items, i, config, path, detect)
      {
        var child := ScanJsonValueInner(items[i], false);
        total := total + child.count;
        redactedItems := redactedItems + [child.redacted];
        findings := findings + child.findings;
      }
      r := ScanReport(total, Array(redactedItems), findings);
    }

    method ScanEntries(entries: JsonObject) returns (r: ScanReport)
      requires UniqueKeys(Object(entries))
      modifies this`path
      ensures path == old(path)
      ensures r == NaiveEntries(entries, |entries|, config, path, detect)
      decreases Object(entries), 1
    {
      var total: nat, redactedEntries: JsonObject, findings: seq<Finding> := 0, [], [];
      for i := 0 to |entries|
        invariant path == old(path)
        invariant ScanReport(total, Object(redactedEntries), findings) == NaiveEntries(entries, i, config, path, detect)
      {
        var (key, nested) := entries[i];
        assert nested == entries[i].1;
        path := path + [key];
        var child := ScanJsonValueInner(nested, false);
        path := path[..|path| - 1];
        total := total + child.count;
        InsertNewKey(redactedEntries, key, child.redacted);
        redactedEntries := Insert(redactedEntries, key, child.redacted);
        findings := findings + child.findings;
      }
      r := ScanReport(total, Object(redactedEntries), findings);
    }
  }

  // ----- The reference, location by location -----

  /** The field path of a location: its keys; array indices do not count. */
  function FieldOf(location: seq<Step>): Path {
    if location == [] then []
    else (if location[0].Key? then [location[0].key] else []) + FieldOf(location[1..])
  }

  /** Only a scannable string may change, and it becomes its redaction. */
  predicate RedactsTo(before: Option<Json>, after: Option<Json>, scannable: bool, detect: Detector) {
    match before
    case None => after == None
    case Some(String(text)) => after == Some(String(if scannable then detect(text).1 else text))
    case Some(Array(items)) => after.Some? && after.value.Array? && |after.value.items| == |items|
    case Some(Object(entries)) =>
      after.Some? && after.value.Object? && |after.value.entries| == |entries|
      && forall i | 0 <= i < |entries| :: after.value.entries[i].0 == entries[i].0
    case Some(scalar) => after == Some(scalar)
  }

  lemma {:induction false} NaiveItemAt(items: seq<Json>, n: nat, i: nat, config: ScanConfig, path: Path,
                                       detect: Detector)
    requires i < n <= |items|
    ensures NaiveItems(items, n, config, path, detect).redacted.items[i]
            == Naive(items[i], config, path, false, detect).redacted
  {
    if i < n - 1 {
      NaiveItemAt(items, n - 1, i, config, path, detect);
    }
  }

  lemma {:induction false} NaiveEntryAt(entries: JsonObject, n: nat, i: nat, config: ScanConfig, path: Path,
                                       detect: Detector)
    requires i < n <= |entries|
    ensures NaiveEntries(entries, n, config, path, detect).redacted.entries[i]
            == (entries[i].0, Naive(entries[i].1, config, path + [entries[i].0], false, detect).redacted)
  {
    if i < n - 1 {
      NaiveEntryAt(entries, n - 1, i, config, path, detect);
    }
  }

  lemma {:induction false} GetSameKeys(a: JsonObject, b: JsonObject, key: string) returns (i: nat)
    requires |a| == |b| && (forall k | 0 <= k < |a| :: a[k].0 == b[k].0) && Get(a, key).Some?
    ensures i < |a| && a[i].0 == key && Get(a, key) == Some(a[i].1) && Get(b, key) == Some(b[i].1)
  {
    if a[0].0 == key {
      i := 0;
    } else {
      var rest := GetSameKeys(a[1..], b[1..], key);
      i := rest + 1;
    }
  }

  /** What the scan does to the value at each location. */
  lemma {:induction false} ScannedAt(value: Json, config: ScanConfig, path: Path, direct: bool, detect: Detector,
                                    location: seq<Step>)
    ensures RedactsTo(At(value, location), At(Naive(value, config, path, direct, detect).redacted, location),
                      ShouldScan(config, path + FieldOf(location), direct && location == []), detect)
    decreases |location|, 1
  {
    if location == [] {
      assert path + FieldOf(location) == path;
    } else {
      match (value, location[0])
      case (Array(items), Index(i)) =>
        if i < |items| {
          NaiveItemAt(items, |items|, i, config, path, detect);
          ScannedAt(items[i], config, path, false, detect, location[1..]);
          assert FieldOf(location) == FieldOf(location[1..]);
        }
      case (Object(entries), Key(key)) => ScannedEntryAt(entries, config, path, detect, location);
      case _ =>
    }
  }

  lemma AtEntry(entries: JsonObject, location: seq<Step>)
    requires location != [] && location[0].Key?
    ensures At(Object(entries), location)
            == match Get(entries, location[0].key) case None => None case Some(child) => At(child, location[1..])
  {
  }

  lemma ScannedEntryAt(entries: JsonObject, config: ScanConfig, path: Path, detect: Detector, location: seq<Step>)
    requires location != [] && location[0].Key?
    ensures RedactsTo(At(Object(entries), location),
                      At(NaiveEntries(entries, |entries|, config, path, detect).redacted, location),
                      ShouldScan(config, path + FieldOf(location), false), detect)
    decreases |location|, 0
  {
    var after, key := NaiveEntries(entries, |entries|, config, path, detect).redacted.entries, location[0].key;
    AtEntry(entries, location);
    if Get(entries, key).Some? {
      var i := GetSameKeys(entries, after, key);
      NaiveEntryAt(entries, |entries|, i, config, path, detect);
      ScannedAt(entries[i].1, config, path + [key], false, detect, location[1..]);
      assert path + FieldOf(location) == path + [key] + FieldOf(location[1..]);
      AtEntry(after, location);
    }
  }

  // ----- Which fields are scanned -----

  /** By prefixes alone: no denied path leads to the field, and an allowed one does if there are any. */
  predicate Selected(config: ScanConfig, field: Path) {
    && (forall i | 0 <= i < |config.denylist| :: !(config.denylist[i] <= field))
    && (config.allowlist == [] || exists i | 0 <= i < |config.allowlist| :: config.allowlist[i] <= field)
  }

  lemma StartsWithIsPrefix(path: Path, prefix: Path)
    ensures PathStartsWith(path, prefix) <==> prefix <= path
  {
    if PathStartsWith(path, prefix) {
      assert path[..|prefix|] == prefix;
    }
  }

  /** The path rules come down to prefixes. */
  lemma ScannedIffSelected(config: ScanConfig, field: Path, direct: bool)
    ensures ShouldScan(config, field, direct) <==> (direct && field == []) || Selected(config, field)
  {
    forall prefix ensures PathStartsWith(field, prefix) <==> prefix <= field {
      StartsWithIsPrefix(field, prefix);
    }
  }

  // ----- The findings, leaf by leaf -----

  function Below(step: Step, locations: seq<seq<Step>>): (r: seq<seq<Step>>)
    ensures |r| == |locations|
  {
    seq(|locations|, i requires 0 <= i < |locations| => [step] + locations[i])
  }

  /** Where the strings of a value are, in document order. */
  function StringsOf(value: Json): seq<seq<Step>>
    decreases value, 2
  {
    match value
    case String(_) => [[]]
    case Array(items) => StringsOfItems(items, |items|)
    case Object(entries) => StringsOfEntries(entries, |entries|)
    case _ => []
  }

  function StringsOfItems(items: seq<Json>, n: nat): seq<seq<Step>>
    requires n <= |items|
    decreases Array(items), 1, n
  {
    if n == 0 then [] else StringsOfItems(items, n - 1) + Below(Index(n - 1), StringsOf(items[n - 1]))
  }

  function StringsOfEntries(entries: JsonObject, n: nat): seq<seq<Step>>
    requires n <= |entries|
    decreases Object(entries), 1, n
  {
    if n == 0 then []
    else
      var (key, value) := entries[n - 1];
      StringsOfEntries(entries, n - 1) + Below(Key(key), StringsOf(value))
  }

  predicate IsStringAt(value: Json, location: seq<Step>) {
    At(value, location).Some? && At(value, location).value.String?
  }

  lemma BelowHas(step: Step, locations: seq<seq<Step>>, location: seq<Step>)
    ensures location in Below(step, locations) <==> location != [] && location[0] == step && location[1..] in locations
  {
    if location in Below(step, locations) {
      var i :| 0 <= i < |locations| && Below(step, locations)[i] == location;
      assert location[1..] == locations[i];
    }
    if location != [] && location[0] == step && location[1..] in locations {
      var i :| 0 <= i < |locations| && locations[i] == location[1..];
      assert Below(step, locations)[i] == [step] + locations[i] == location;
    }
  }

  /** Exactly the strings are listed. */
  lemma {:induction false} StringsExactly(value: Json, location: seq<Step>)
    requires UniqueKeys(value)
    ensures location in StringsOf(value) <==> IsStringAt(value, location)
    decreases value, 2
  {
    match value
    case Array(items) => StringsOfItemsExactly(items, |items|, location);
    case Object(entries) =>
      StringsOfEntriesExactly(entries, |entries|, location);
      if location != [] && location[0].Key? && Get(entries, location[0].key).Some? {
        var i :| 0 <= i < |entries| && entries[i] == (location[0].key, Get(entries, location[0].key).value);
        assert EntryStringAt(entries, i, location) <==> IsStringAt(value, location);
        forall j | 0 <= j < |entries| && EntryStringAt(entries, j, location) ensures j == i {
        }
      }
    case _ =>
  }

  predicate EntryStringAt(entries: JsonObject, i: nat, location: seq<Step>)
    requires i < |entries|
  {
    location != [] && location[0] == Key(entries[i].0) && IsStringAt(entries[i].1, location[1..])
  }

  lemma {:induction false} StringsOfItemsExactly(items: seq<Json>, n: nat, location: seq<Step>)
    requires n <= |items| && UniqueKeys(Array(items))
    ensures location in StringsOfItems(items, n)
            <==> && location != [] && location[0].Index? && location[0].index < n
                 && IsStringAt(items[location[0].index], location[1..])
    decreases Array(items), 1, n
  {
    if n > 0 {
      StringsOfItemsExactly(items, n - 1, location);
      BelowHas(Index(n - 1), StringsOf(items[n - 1]), location);
      if location != [] {
        StringsExactly(items[n - 1], location[1..]);
      }
    }
  }

  lemma {:induction false} StringsOfEntriesExactly(entries: JsonObject, n: nat, location: seq<Step>)
    requires n <= |entries| && UniqueKeys(Object(entries))
    ensures location in StringsOfEntries(entries, n)
            <==> exists i {:trigger EntryStringAt(entries, i, location)} | 0 <= i < n ::
                   EntryStringAt(entries, i, location)
    decreases Object(entries), 1, n
  {
    if n > 0 {
      var (key, value) := entries[n - 1];
      assert value == entries[n - 1].1;
      StringsOfEntriesExactly(entries, n - 1, location);
      BelowHas(Key(key), StringsOf(value), location);
      if location != [] {
        StringsExactly(value, location[1..]);
      }
      assert location in Below(Key(key), StringsOf(value)) <==> EntryStringAt(entries, n - 1, location);
    }
  }

  /** What detection finds at one place, if it is a scanned string; `whole` is whether the value itself may be one. */
  function FindingsAt(value: Json, location: seq<Step>, config: ScanConfig, path: Path, whole: bool, detect: Detector)
      : seq<Finding>
  {
    if IsStringAt(value, location) && ((whole && location == []) || Selected(config, path + FieldOf(location)))
    then detect(At(value, location).value.s).0 else []
  }

  /** The findings at some places, in order. */
  function FindingsAlong(value: Json, locations: seq<seq<Step>>, config: ScanConfig, path: Path, whole: bool,
                         detect: Detector)
      : seq<Finding>
  {
    if locations == [] then []
    else
      FindingsAlong(value, locations[..|locations| - 1], config, path, whole, detect)
      + FindingsAt(value, locations[|locations| - 1], config, path, whole, detect)
  }

  lemma {:induction false} AlongConcat(value: Json, a: seq<seq<Step>>, b: seq<seq<Step>>, config: ScanConfig,
                                       path: Path, whole: bool, detect: Detector)
    ensures FindingsAlong(value, a + b, config, path, whole, detect)
            == FindingsAlong(value, a, config, path, whole, detect)
               + FindingsAlong(value, b, config, path, whole, detect)
  {
    if b == [] {
      assert a + b == a;
    } else {
      var front, last := b[..|b| - 1], b[|b| - 1];
      assert (a + b)[..|a + b| - 1] == a + front && (a + b)[|a + b| - 1] == last;
      AlongConcat(value, a, front, config, path, whole, detect);
      var x := FindingsAlong(value, a, config, path, whole, detect);
      var y := FindingsAlong(value, front, config, path, whole, detect);
      var z := FindingsAt(value, last, config, path, whole, detect);
      assert x + y + z == x + (y + z);
    }
  }

  /** `child` is what is found one step into the value, and `inner` the field path there. */
  ghost predicate LeadsTo(value: Json, step: Step, child: Json, path: Path, inner: Path) {
    forall location: seq<Step> {:trigger At(child, location)} ::
      && At(value, [step] + location) == At(child, location)
      && path + FieldOf([step] + location) == inner + FieldOf(location)
  }

  lemma {:induction false} AlongBelow(value: Json, step: Step, child: Json, locations: seq<seq<Step>>,
                                      config: ScanConfig, path: Path, inner: Path, whole: bool, detect: Detector)
    requires LeadsTo(value, step, child, path, inner)
    ensures FindingsAlong(value, Below(step, locations), config, path, whole, detect)
            == FindingsAlong(child, locations, config, inner, false, detect)
  {
    if locations != [] {
      var front, last := locations[..|locations| - 1], locations[|locations| - 1];
      assert Below(step, locations)[..|locations| - 1] == Below(step, front);
      AlongBelow(value, step, child, front, config, path, inner, whole, detect);
      assert At(value, [step] + last) == At(child, last);
    }
  }

  lemma ItemLeads(items: seq<Json>, i: nat, path: Path)
    requires i < |items|
    ensures LeadsTo(Array(items), Index(i), items[i], path, path)
  {
    forall location: seq<Step>
      ensures At(Array(items), [Index(i)] + location) == At(items[i], location)
      ensures path + FieldOf([Index(i)] + location) == path + FieldOf(location)
    {
      assert ([Index(i)] + location)[1..] == location;
    }
  }

  lemma EntryLeads(entries: JsonObject, i: nat, path: Path)
    requires i < |entries| && UniqueKeys(Object(entries))
    ensures LeadsTo(Object(entries), Key(entries[i].0), entries[i].1, path, path + [entries[i].0])
  {
    GetUnique(entries, i);
    var step := Key(entries[i].0);
    forall location: seq<Step>
      ensures At(Object(entries), [step] + location) == At(entries[i].1, location)
      ensures path + FieldOf([step] + location) == path + [entries[i].0] + FieldOf(location)
    {
      assert ([step] + location)[1..] == location;
    }
  }

  lemma ItemLeavesAppend(items: seq<Json>, n: nat, config: ScanConfig, path: Path, whole: bool, detect: Detector)
    requires 0 < n <= |items|
    ensures FindingsAlong(Array(items), StringsOfItems(items, n), config, path, whole, detect)
            == FindingsAlong(Array(items), StringsOfItems(items, n - 1), config, path, whole, detect)
               + FindingsAlong(items[n - 1], StringsOf(items[n - 1]), config, path, false, detect)
  {
    var front, below := StringsOfItems(items, n - 1), Below(Index(n - 1), StringsOf(items[n - 1]));
    ItemLeads(items, n - 1, path);
    AlongBelow(Array(items), Index(n - 1), items[n - 1], StringsOf(items[n - 1]), config, path, path, whole, detect);
    AlongConcat(Array(items), front, below, config, path, whole, detect);
  }

  lemma EntryLeavesAppend(entries: JsonObject, n: nat, config: ScanConfig, path: Path, whole: bool, detect: Detector)
    requires 0 < n <= |entries| && UniqueKeys(Object(entries))
    ensures FindingsAlong(Object(entries), StringsOfEntries(entries, n), config, path, whole, detect)
            == FindingsAlong(Object(entries), StringsOfEntries(entries, n - 1), config, path, whole, detect)
               + FindingsAlong(entries[n - 1].1, StringsOf(entries[n - 1].1), config, path + [entries[n - 1].0], false,
                               detect)
  {
    var (key, child) := entries[n - 1];
    var front, below := StringsOfEntries(entries, n - 1), Below(Key(key), StringsOf(child));
    EntryLeads(entries, n - 1, path);
    AlongBelow(Object(entries), Key(key), child, StringsOf(child), config, path, path + [key], whole, detect);
    AlongConcat(Object(entries), front, below, config, path, whole, detect);
  }

  /** The findings of a value are those of its scanned strings, one after another. */
  lemma {:induction false} FindingsAreLeaves(value: Json, config: ScanConfig, path: Path, direct: bool,
                                             detect: Detector)
    requires UniqueKeys(value)
    ensures Naive(value, config, path, direct, detect).findings
            == FindingsAlong(value, StringsOf(value), config, path, direct && path == [], detect)
    decreases value, 2
  {
    match value
    case String(text) =>
      ScannedIffSelected(config, path, direct);
      assert path + FieldOf([]) == path;
      assert StringsOf(value)[..0] == [];
      assert FindingsAlong(value, [], config, path, direct && path == [], detect) == [];
      assert At(value, []) == Some(value);
    case Array(items) => ItemFindingsAreLeaves(items, |items|, config, path, direct && path == [], detect);
    case Object(entries) => EntryFindingsAreLeaves(entries, |entries|, config, path, direct && path == [], detect);
    case _ =>
  }

  lemma {:induction false} ItemFindingsAreLeaves(items: seq<Json>, n: nat, config: ScanConfig, path: Path, whole: bool,
                                                 detect: Detector)
    requires n <= |items| && UniqueKeys(Array(items))
    ensures NaiveItems(items, n, config, path, detect).findings
            == FindingsAlong(Array(items), StringsOfItems(items, n), config, path, whole, detect)
    decreases Array(items), 1, n
  {
    if n > 0 {
      ItemFindingsAreLeaves(items, n - 1, config, path, whole, detect);
      FindingsAreLeaves(items[n - 1], config, path, false, detect);
      ItemLeavesAppend(items, n, config, path, whole, detect);
    }
  }

  lemma {:induction false} EntryFindingsAreLeaves(entries: JsonObject, n: nat, config: ScanConfig, path: Path,
                                                  whole: bool, detect: Detector)
    requires n <= |entries| && UniqueKeys(Object(entries))
    ensures NaiveEntries(entries, n, config, path, detect).findings
            == FindingsAlong(Object(entries), StringsOfEntries(entries, n), config, path, whole, detect)
    decreases Object(entries), 1, n
  {
    if n > 0 {
      var (key, child) := entries[n - 1];
      assert child == entries[n - 1].1;
      EntryFindingsAreLeaves(entries, n - 1, config, path, whole, detect);
      FindingsAreLeaves(child, config, path + [key], false, detect);
      EntryLeavesAppend(entries, n, config, path, whole, detect);
    }
  }

  lemma {:induction false} CountIsFindings(value: Json, config: ScanConfig, path: Path, direct: bool, detect: Detector)
    ensures Naive(value, config, path, direct, detect).count == |Naive(value, config, path, direct, detect).findings|
    decreases value, 2
  {
    match value
    case Array(items) => CountIsFindingsItems(items, |items|, config, path, detect);
    case Object(entries) => CountIsFindingsEntries(entries, |entries|, config, path, detect);
    case _ =>
  }

  lemma {:induction false} CountIsFindingsItems(items: seq<Json>, n: nat, config: ScanConfig, path: Path,
                                                detect: Detector)
    requires n <= |items|
    ensures NaiveItems(items, n, config, path, detect).count == |NaiveItems(items, n, config, path, detect).findings|
    decreases Array(items), 1, n
  {
    if n > 0 {
      CountIsFindingsItems(items, n - 1, config, path, detect);
      CountIsFindings(items[n - 1], config, path, false, detect);
    }
  }

  lemma {:induction false} CountIsFindingsEntries(entries: JsonObject, n: nat, config: ScanConfig, path: Path,
                                                  detect: Detector)
    requires n <= |entries|
    ensures NaiveEntries(entries, n, config, path, detect).count
            == |NaiveEntries(entries, n, config, path, detect).findings|
    decreases Object(entries), 1, n
  {
    if n > 0 {
      CountIsFindingsEntries(entries, n - 1, config, path, detect);
      var (key, value) := entries[n - 1];
      assert value == entries[n - 1].1;
      CountIsFindings(value, config, path + [key], false, detect);
    }
  }

  // ----- The scan -----

  predicate IsScalar(value: Json) { !value.String? && !value.Array? && !value.Object? }

  /**
    The pruned scan reports what the scan of every string leaf reports. At each place it gives a string its redaction
    if it is the root or its field is selected by the denied and allowed prefixes, and leaves it otherwise; other
    values stay. The findings are those of the scanned strings in document order, and the count is their number.
   */
  method ScanJsonValue(value: Json, config: ScanConfig, detect: Detector) returns (r: ScanReport)
    requires UniqueKeys(value)
    ensures forall location, text {:trigger At(value, location), String(text)}
              | At(value, location) == Some(String(text)) ::
              At(r.redacted, location)
              == Some(String(if location == []
                                || ((forall i | 0 <= i < |config.denylist| ::
                                       !(config.denylist[i] <= FieldOf(location)))
                                    && (config.allowlist == []
                                        || exists i | 0 <= i < |config.allowlist| ::
                                             config.allowlist[i] <= FieldOf(location)))
                             then detect(text).1 else text))
    ensures forall location | At(value, location).Some? && IsScalar(At(value, location).value) ::
              At(r.redacted, location) == At(value, location)
    ensures r.findings == FindingsAlong(value, StringsOf(value), config, [], true, detect)
    ensures r.count == |r.findings|
    ensures r == Naive(value, config, [], true, detect)
  {
    var scanner := new Scanner(config, detect);
    r := scanner.ScanJsonValueInner(value, true);
    forall location
      ensures RedactsTo(At(value, location), At(r.redacted, location),
                        location == [] || Selected(config, FieldOf(location)), detect)
    {
      assert [] + FieldOf(location) == FieldOf(location);
      ScannedAt(value, config, [], true, detect, location);
      ScannedIffSelected(config, FieldOf(location), location == []);
    }
    FindingsAreLeaves(value, config, [], true, detect);
    CountIsFindings(value, config, [], true, detect);
  }
}
