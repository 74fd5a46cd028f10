/**
  Secret detection in one text: candidate matches are collected, sorted, merged where they
  overlap, reported, and cut out of the text. The pattern engine is an input: it yields
  non-empty ranges of the text. A text is its sequence of UTF-8 bytes, one `char` a byte.
 */
module Redactor {
  import opened Common

  datatype Range = Range(start: nat, end: nat)

  /** One match of a pattern: the whole range, and the first capture group if it took part. */
  datatype Hit = Hit(whole: Range, group: Option<Range>)

  datatype PatternHits = PatternHits(name: string, hits: seq<Hit>)

  datatype Candidate = Candidate(name: string, start: nat, end: nat, text: string)

  datatype Finding = Finding(piiType: string, preview: string)

  // ----- Collecting candidates -----

  predicate ValidRange(range: Range, text: string) { range.start < range.end <= |text| }

  predicate ValidHits(patterns: seq<PatternHits>, text: string) {
    forall p, h | p in patterns && h in p.hits ::
      ValidRange(h.whole, text) && (h.group.Some? ==> ValidRange(h.group.value, text))
  }

  predicate IsCapturePattern(name: string) { name == "base64_24" }

  predicate IsBase64Char(c: char) {
    'a' <= c <= 'z' || 'A' <= c <= 'Z' || '0' <= c <= '9' || c == '+' || c == '/' || c == '='
  }

  function CandidateAt(name: string, range: Range, text: string): Candidate
    requires ValidRange(range, text)
  {
    Candidate(name, range.start, range.end, text[range.start..range.end])
  }

  /** The candidate of one match, if it is kept. */
  function Kept(name: string, hit: Hit, text: string): seq<Candidate>
    requires ValidRange(hit.whole, text) && (hit.group.Some? ==> ValidRange(hit.group.value, text))
  {
    if !IsCapturePattern(name) then [CandidateAt(name, hit.whole, text)]
    else if hit.group.None? then []
    else if hit.group.value.end < |text| && IsBase64Char(text[hit.group.value.end]) then []
    else [CandidateAt(name, hit.group.value, text)]
  }

  function KeptOf(p: PatternHits, n: nat, text: string): seq<Candidate>
    requires n <= |p.hits| && ValidHits([p], text)
  {
    if n == 0 then []
    else
      assert p in [p] && p.hits[n - 1] in p.hits;
      KeptOf(p, n - 1, text) + Kept(p.name, p.hits[n - 1], text)
  }

  function CandidatesOf(patterns: seq<PatternHits>, enabled: string -> bool, text: string): seq<Candidate>
    requires ValidHits(patterns, text)
  {
    if patterns == [] then []
    else
      var front, last := patterns[..|patterns| - 1], patterns[|patterns| - 1];
      CandidatesOf(front, enabled, text) + if enabled(last.name) then KeptOf(last, |last.hits|, text) else []
  }

  predicate ValidIn(c: Candidate, text: string) {
    c.start < c.end <= |text| && c.text == text[c.start..c.end]
  }

  predicate AllValidIn(cs: seq<Candidate>, text: string) { forall c | c in cs :: ValidIn(c, text) }

  lemma {:induction false} KeptAreValid(p: PatternHits, n: nat, text: string)
    requires n <= |p.hits| && ValidHits([p], text)
    ensures AllValidIn(KeptOf(p, n, text), text)
  {
    if n > 0 {
      assert p in [p] && p.hits[n - 1] in p.hits;
      KeptAreValid(p, n - 1, text);
    }
  }

  lemma {:induction false} CandidatesAreValid(patterns: seq<PatternHits>, enabled: string -> bool, text: string)
    requires ValidHits(patterns, text)
    ensures AllValidIn(CandidatesOf(patterns, enabled, text), text)
  {
    if patterns != [] {
      var last := patterns[|patterns| - 1];
      CandidatesAreValid(patterns[..|patterns| - 1], enabled, text);
      KeptAreValid(last, |last.hits|, text);
    }
  }

  /** The k-th match of the pattern is where the candidate comes from; a capture must not run on in Base64. */
  predicate HitYields(p: PatternHits, text: string, c: Candidate, k: nat) {
    && k < |p.hits|
    && var matched := if IsCapturePattern(p.name) then p.hits[k].group else Some(p.hits[k].whole);
       && matched.Some? && ValidRange(matched.value, text)
       && c == CandidateAt(p.name, matched.value, text)
       && (IsCapturePattern(p.name) && matched.value.end < |text| ==> !IsBase64Char(text[matched.value.end]))
  }

  predicate Yields(p: PatternHits, enabled: string -> bool, text: string, c: Candidate) {
    enabled(p.name) && exists k | 0 <= k < |p.hits| :: HitYields(p, text, c, k)
  }

  lemma {:induction false} KeptExactly(p: PatternHits, n: nat, text: string, c: Candidate)
    requires n <= |p.hits| && ValidHits([p], text)
    ensures c in KeptOf(p, n, text) <==> exists k | 0 <= k < n :: HitYields(p, text, c, k)
  {
    if n > 0 {
      assert p in [p] && p.hits[n - 1] in p.hits;
      KeptExactly(p, n - 1, text, c);
      assert c in Kept(p.name, p.hits[n - 1], text) <==> HitYields(p, text, c, n - 1);
    }
  }

  /** The candidates are exactly the matches of enabled patterns, less the captures that run on. */
  lemma {:induction false} CandidatesExactly(patterns: seq<PatternHits>, enabled: string -> bool, text: string,
                                             c: Candidate)
    requires ValidHits(patterns, text)
    ensures c in CandidatesOf(patterns, enabled, text) <==> exists p | p in patterns :: Yields(p, enabled, text, c)
  {
    if patterns != [] {
      var front, last := patterns[..|patterns| - 1], patterns[|patterns| - 1];
      CandidatesExactly(front, enabled, text, c);
      KeptExactly(last, |last.hits|, text, c);
      assert patterns == front + [last];
      assert last in patterns;
    }
  }

  method CollectCandidates(patterns: seq<PatternHits>, enabled: string -> bool, text: string)
      returns (candidates: seq<Candidate>)
    requires ValidHits(patterns, text)
    ensures candidates == CandidatesOf(patterns, enabled, text)
    ensures AllValidIn(candidates, text)
  {
    candidates := [];
    for i := 0 to |patterns|
      invariant candidates == CandidatesOf(patterns[..i], enabled, text)
    {
      var p := patterns[i];
      assert patterns[..i + 1][..i] == patterns[..i];
      if !enabled(p.name) {
        continue;
      }
      ghost var before := candidates;
      for k := 0 to |p.hits|
        invariant candidates == before + KeptOf(p, k, text)
      {
        assert p in patterns && p.hits[k] in p.hits;
        var hit := p.hits[k];
        if IsCapturePattern(p.name) {
          if hit.group.None? {
            continue;
          }
          var matched := hit.group.value;
          if matched.end < |text| && IsBase64Char(text[matched.end]) {
            continue;
          }
          candidates := candidates + [CandidateAt(p.name, matched, text)];
        } else {
          candidates := candidates + [CandidateAt(p.name, hit.whole, text)];
        }
      }
    }
    assert patterns[..|patterns|] == patterns;
    CandidatesAreValid(patterns, enabled, text);
  }

  // ----- Sorting -----

  function Specificity(name: string): nat {
    if name == "generic_api_key_assignment" || name == "jwt_like" then 1
    else if name == "hex_secret_32" then 2
    else if name == "base64_24" then 3
    else 0
  }

  /** The table of specificities, and the one pattern that reports its capture group. */
  lemma PatternTable(name: string)
    ensures Specificity(name) == 1 <==> name == "generic_api_key_assignment" || name == "jwt_like"
    ensures Specificity(name) == 2 <==> name == "hex_secret_32"
    ensures Specificity(name) == 3 <==> name == "base64_24"
    ensures Specificity(name) <= 3
    ensures IsCapturePattern(name) <==> name == "base64_24"
  {
  }

  /** A capture is dropped before a letter, a digit, a plus sign, a slash or an equals sign. */
  lemma BoundaryCharacters(c: char)
    ensures var n := c as int;
            IsBase64Char(c)
            <==> n == 0x2B || 0x2F <= n <= 0x39 || n == 0x3D || 0x41 <= n <= 0x5A || 0x61 <= n <= 0x7A
  {
  }

  function Length(c: Candidate): int { c.end - c.start }

  predicate StringLessEq(a: string, b: string) {
    a == "" || (b != "" && (a[0] < b[0] || (a[0] == b[0] && StringLessEq(a[1..], b[1..]))))
  }

  /** The sort key: start, specificity, longest first, name. */
  predicate LessEq(a: Candidate, b: Candidate) {
    || a.start < b.start
    || (a.start == b.start
        && (|| Specificity(a.name) < Specificity(b.name)
            || (Specificity(a.name) == Specificity(b.name)
                && (Length(a) > Length(b) || (Length(a) == Length(b) && StringLessEq(a.name, b.name))))))
  }

  predicate SortedCandidates(cs: seq<Candidate>) { forall i, j | 0 <= i < j < |cs| :: LessEq(cs[i], cs[j]) }

  lemma {:induction false} StringTotal(a: string, b: string)
    ensures StringLessEq(a, b) || StringLessEq(b, a)
  {
    if a != "" && b != "" && a[0] == b[0] {
      StringTotal(a[1..], b[1..]);
    }
  }

  lemma {:induction false} StringAntisymmetric(a: string, b: string)
    requires StringLessEq(a, b) && StringLessEq(b, a)
    ensures a == b
  {
    if a != "" {
      StringAntisymmetric(a[1..], b[1..]);
      assert a == [a[0]] + a[1..] && b == [b[0]] + b[1..];
    }
  }

  lemma {:induction false} StringTransitive(a: string, b: string, c: string)
    requires StringLessEq(a, b) && StringLessEq(b, c)
    ensures StringLessEq(a, c)
  {
    if a != "" && a[0] == b[0] == c[0] {
      StringTransitive(a[1..], b[1..], c[1..]);
    }
  }

  lemma LessEqTotal(a: Candidate, b: Candidate)
    ensures LessEq(a, b) || LessEq(b, a)
  {
    StringTotal(a.name, b.name);
  }

  lemma LessEqTransitive(a: Candidate, b: Candidate, c: Candidate)
    requires LessEq(a, b) && LessEq(b, c)
    ensures LessEq(a, c)
  {
    if StringLessEq(a.name, b.name) && StringLessEq(b.name, c.name) {
      StringTransitive(a.name, b.name, c.name);
    }
  }

  /** The sort key identifies a candidate of a given text. */
  lemma LessEqAntisymmetric(a: Candidate, b: Candidate, text: string)
    requires ValidIn(a, text) && ValidIn(b, text) && LessEq(a, b) && LessEq(b, a)
    ensures a == b
  {
    StringAntisymmetric(a.name, b.name);
  }

  function InsertSorted(c: Candidate, cs: seq<Candidate>): (r: seq<Candidate>)
    ensures multiset(r) == multiset(cs) + multiset{c}
  {
    if cs == [] then [c]
    else if LessEq(c, cs[0]) then [c] + cs
    else
      assert cs == [cs[0]] + cs[1..];
      [cs[0]] + InsertSorted(c, cs[1..])
  }

  function Sort(cs: seq<Candidate>): (r: seq<Candidate>)
    ensures multiset(r) == multiset(cs)
  {
    if cs == [] then []
    else
      assert cs == [cs[0]] + cs[1..];
      InsertSorted(cs[0], Sort(cs[1..]))
  }

  lemma {:induction false} InsertKeepsSorted(c: Candidate, cs: seq<Candidate>)
    requires SortedCandidates(cs)
    ensures SortedCandidates(InsertSorted(c, cs))
  {
    if cs == [] {
    } else if LessEq(c, cs[0]) {
      forall i | 0 < i < |cs| ensures LessEq(c, cs[i]) {
        LessEqTransitive(c, cs[0], cs[i]);
      }
    } else {
      LessEqTotal(c, cs[0]);
      InsertKeepsSorted(c, cs[1..]);
      var rest := InsertSorted(c, cs[1..]);
      forall i | 0 <= i < |rest| ensures LessEq(cs[0], rest[i]) {
        assert rest[i] in multiset(rest);
        assert rest[i] == c || rest[i] in cs[1..];
      }
    }
  }

  lemma {:induction false} SortSorts(cs: seq<Candidate>)
    ensures SortedCandidates(Sort(cs))
  {
    if cs != [] {
      SortSorts(cs[1..]);
      InsertKeepsSorted(cs[0], Sort(cs[1..]));
    }
  }

  /** Byte order: the one is a prefix of the other, or smaller where they first differ. */
  predicate NotAfter(a: string, b: string) {
    a <= b || exists k | 0 <= k < |a| && k < |b| :: a[..k] == b[..k] && a[k] < b[k]
  }

  lemma {:induction false} StringOrder(a: string, b: string)
    ensures StringLessEq(a, b) ==> NotAfter(a, b)
  {
    if StringLessEq(a, b) && a != "" && a[0] == b[0] {
      StringOrder(a[1..], b[1..]);
      if a[1..] <= b[1..] {
        assert a == [a[0]] + a[1..] && b == [b[0]] + b[1..];
      } else {
        var k :| 0 <= k < |a[1..]| && k < |b[1..]| && a[1..][..k] == b[1..][..k] && a[1..][k] < b[1..][k];
        assert a[..k + 1] == [a[0]] + a[1..][..k] && b[..k + 1] == [b[0]] + b[1..][..k];
        assert a[k + 1] < b[k + 1];
      }
    } else if StringLessEq(a, b) && a != "" {
      assert a[..0] == b[..0];
    }
  }

  /** The sorted order, key by key: earlier start, lower number, longer match, smaller name. */
  lemma SortOrder(cs: seq<Candidate>, i: nat, j: nat)
    requires i < j < |cs|
    ensures var a, b := Sort(cs)[i], Sort(cs)[j];
            && |Sort(cs)| == |cs|
            && (|| a.start < b.start
                || (a.start == b.start
                    && (|| Specificity(a.name) < Specificity(b.name)
                        || (Specificity(a.name) == Specificity(b.name)
                            && (|| a.end - a.start > b.end - b.start
                                || (a.end - a.start == b.end - b.start && NotAfter(a.name, b.name)))))))
  {
    SortSorts(cs);
    assert |multiset(Sort(cs))| == |multiset(cs)|;
    var a, b := Sort(cs)[i], Sort(cs)[j];
    assert LessEq(a, b);
    StringOrder(a.name, b.name);
  }

  lemma SameMembers(a: seq<Candidate>, b: seq<Candidate>)
    requires multiset(a) == multiset(b)
    ensures forall c :: c in a <==> c in b
  {
    forall c ensures c in a <==> c in b {
      assert c in a <==> c in multiset(a);
      assert c in b <==> c in multiset(b);
    }
  }

  lemma FirstIsLeast(cs: seq<Candidate>, c: Candidate)
    requires SortedCandidates(cs) && c in cs
    ensures LessEq(cs[0], c)
  {
    LessEqTotal(c, c);
  }

  lemma SameHead(a: seq<Candidate>, b: seq<Candidate>, text: string)
    requires a != [] && SortedCandidates(a) && SortedCandidates(b) && multiset(a) == multiset(b)
    requires AllValidIn(a, text)
    ensures b != [] && a[0] == b[0] && multiset(a[1..]) == multiset(b[1..])
  {
    SameMembers(a, b);
    assert a[0] in b;
    assert b[0] in a;
    FirstIsLeast(a, b[0]);
    FirstIsLeast(b, a[0]);
    LessEqAntisymmetric(a[0], b[0], text);
    assert a == [a[0]] + a[1..] && b == [b[0]] + b[1..];
    assert multiset(a[1..]) == multiset(a) - multiset{a[0]};
    assert multiset(b[1..]) == multiset(b) - multiset{b[0]};
  }

  /** There is one sorted arrangement of the candidates of a text. */
  lemma {:induction false} SortedUnique(a: seq<Candidate>, b: seq<Candidate>, text: string)
    requires SortedCandidates(a) && SortedCandidates(b) && multiset(a) == multiset(b)
    requires AllValidIn(a, text)
    ensures a == b
  {
    if a == [] {
      assert |multiset(a)| == |multiset(b)|;
    } else {
      SameHead(a, b, text);
      SortedUnique(a[1..], b[1..], text);
      assert a == [a[0]] + a[1..] && b == [b[0]] + b[1..];
    }
  }

  // ----- Merging overlaps -----

  /** The newcomer's label wins on specificity, or on a length beyond the whole merged span. */
  predicate Relabels(current: Candidate, c: Candidate) {
    || Specificity(c.name) < Specificity(current.name)
    || (Specificity(c.name) == Specificity(current.name) && Length(c) > Length(current))
  }

  function Absorb(current: Candidate, c: Candidate): Candidate {
    Candidate(
      if Relabels(current, c) then c.name else current.name,
      current.start,
      if c.end > current.end then c.end else current.end,
      if Relabels(current, c) then c.text else current.text)
  }

  function MergeStep(selected: seq<Candidate>, c: Candidate): seq<Candidate> {
    if selected == [] || c.start >= selected[|selected| - 1].end then selected + [c]
    else selected[|selected| - 1 := Absorb(selected[|selected| - 1], c)]
  }

  function Merge(cs: seq<Candidate>): seq<Candidate> {
    if cs == [] then [] else MergeStep(Merge(cs[..|cs| - 1]), cs[|cs| - 1])
  }

  method MergeOverlaps(candidates: seq<Candidate>) returns (selected: seq<Candidate>)
    ensures selected == Merge(candidates)
  {
    selected := [];
    for i := 0 to |candidates|
      invariant selected == Merge(candidates[..i])
    {
      var c := candidates[i];
      assert candidates[..i + 1][..i] == candidates[..i];
      if selected == [] {
        selected := selected + [c];
        continue;
      }
      var current := selected[|selected| - 1];
      if c.start >= current.end {
        selected := selected + [c];
        continue;
      }
      if Relabels(current, c) {
        current := current.(name := c.name, text := c.text);
      }
      if c.end > current.end {
        current := current.(end := c.end);
      }
      selected := selected[|selected| - 1 := current];
    }
    assert candidates[..|candidates|] == candidates;
  }

  // ----- Overlap and its components -----

  predicate Overlap(a: Candidate, b: Candidate) { a.start < b.end && b.start < a.end }

  predicate Chain(cs: seq<Candidate>, path: seq<Candidate>) {
    && path != []
    && (forall i | 0 <= i < |path| :: path[i] in cs)
    && forall i | 0 < i < |path| :: Overlap(path[i - 1], path[i])
  }

  /** `a` and `b` are in one connected component of the overlap relation on `cs`. */
  ghost predicate Linked(cs: seq<Candidate>, a: Candidate, b: Candidate) {
    exists path :: Chain(cs, path) && path[0] == a && path[|path| - 1] == b
  }

  predicate InSpan(span: Candidate, c: Candidate) { span.start <= c.start && c.end <= span.end }

  predicate Covers(cs: seq<Candidate>, p: int) { exists i | 0 <= i < |cs| :: cs[i].start <= p < cs[i].end }

  /** Some candidate lies on both sides of the boundary before `p`. */
  predicate Straddles(cs: seq<Candidate>, p: int) { exists i | 0 <= i < |cs| :: cs[i].start < p < cs[i].end }

  lemma LinkedSelf(cs: seq<Candidate>, a: Candidate)
    requires a in cs
    ensures Linked(cs, a, a)
  {
    assert Chain(cs, [a]);
  }

  lemma LinkedExtend(cs: seq<Candidate>, a: Candidate, b: Candidate, c: Candidate)
    requires Linked(cs, a, b) && c in cs && Overlap(b, c)
    ensures Linked(cs, a, c)
  {
    var path :| Chain(cs, path) && path[0] == a && path[|path| - 1] == b;
    assert Chain(cs, path + [c]);
    assert (path + [c])[|path + [c]| - 1] == c;
  }

  lemma LinkedSymmetric(cs: seq<Candidate>, a: Candidate, b: Candidate)
    requires Linked(cs, a, b)
    ensures Linked(cs, b, a)
  {
    var path :| Chain(cs, path) && path[0] == a && path[|path| - 1] == b;
    var back := seq(|path|, i requires 0 <= i < |path| => path[|path| - 1 - i]);
    forall i | 0 < i < |back| ensures Overlap(back[i - 1], back[i]) {
      assert Overlap(path[|path| - 1 - i], path[|path| - i]);
    }
    assert Chain(cs, back);
    assert back[0] == b && back[|back| - 1] == a;
  }

  lemma LinkedGrows(cs: seq<Candidate>, c: Candidate, a: Candidate, b: Candidate)
    requires Linked(cs, a, b)
    ensures Linked(cs + [c], a, b)
  {
    var path :| Chain(cs, path) && path[0] == a && path[|path| - 1] == b;
    assert Chain(cs + [c], path);
  }

  // ----- What merging a sorted list establishes -----

  /** Spans are non-empty, in order and disjoint; touching spans stay separate. */
  predicate Separate(spans: seq<Candidate>) {
    && (forall i | 0 <= i < |spans| :: spans[i].start < spans[i].end)
    && forall i, j | 0 <= i < j < |spans| :: spans[i].end <= spans[j].start
  }

  predicate HasSpan(spans: seq<Candidate>, c: Candidate) { exists i | 0 <= i < |spans| :: InSpan(spans[i], c) }

  predicate EachInSpan(cs: seq<Candidate>, spans: seq<Candidate>) {
    forall c {:trigger HasSpan(spans, c)} | c in cs :: HasSpan(spans, c)
  }

  /** A span starts with one of its candidates, ends with one, and has no inner boundary. */
  predicate Tight(cs: seq<Candidate>, span: Candidate) {
    && (exists c :: c in cs && InSpan(span, c) && c.start == span.start)
    && (exists c :: c in cs && InSpan(span, c) && c.end == span.end)
    && forall p | span.start < p < span.end :: Straddles(cs, p)
  }

  /** The label is that of a candidate of least specificity number in the span. */
  predicate Labelled(cs: seq<Candidate>, span: Candidate) {
    && (exists c :: c in cs && InSpan(span, c) && c.name == span.name && c.text == span.text)
    && forall c | c in cs && InSpan(span, c) :: Specificity(span.name) <= Specificity(c.name)
  }

  ghost predicate Together(cs: seq<Candidate>, span: Candidate) {
    forall a, b | a in cs && b in cs && InSpan(span, a) && InSpan(span, b) :: Linked(cs, a, b)
  }

  ghost predicate Explained(cs: seq<Candidate>, span: Candidate) {
    Tight(cs, span) && Labelled(cs, span) && Together(cs, span)
  }

  ghost predicate EachExplained(cs: seq<Candidate>, spans: seq<Candidate>) {
    forall i {:trigger Explained(cs, spans[i])} | 0 <= i < |spans| :: Explained(cs, spans[i])
  }

  ghost predicate Merged(cs: seq<Candidate>, spans: seq<Candidate>) {
    Separate(spans) && EachInSpan(cs, spans) && EachExplained(cs, spans)
  }

  predicate NonEmpty(cs: seq<Candidate>) { forall c | c in cs :: c.start < c.end }

  /** `c` comes no earlier than the candidates before it. */
  predicate NotBefore(cs: seq<Candidate>, c: Candidate) {
    c.start < c.end && NonEmpty(cs) && forall d | d in cs :: d.start <= c.start
  }

  lemma StraddlesGrows(cs: seq<Candidate>, c: Candidate, p: int)
    ensures Straddles(cs + [c], p) <==> Straddles(cs, p) || c.start < p < c.end
  {
    assert (cs + [c])[|cs|] == c;
    assert forall i | 0 <= i < |cs| :: (cs + [c])[i] == cs[i];
  }

  /** A span that stays as it is keeps its properties when `c` falls outside it. */
  lemma SpanKept(cs: seq<Candidate>, c: Candidate, span: Candidate)
    requires Explained(cs, span) && !InSpan(span, c)
    ensures Explained(cs + [c], span)
  {
    forall p | span.start < p < span.end ensures Straddles(cs + [c], p) {
      StraddlesGrows(cs, c, p);
    }
    forall a, b | a in cs && b in cs && InSpan(span, a) && InSpan(span, b) ensures Linked(cs + [c], a, b) {
      LinkedGrows(cs, c, a, b);
    }
  }

  lemma SpanOpened(cs: seq<Candidate>, c: Candidate)
    requires c.start < c.end && forall d | d in cs :: !InSpan(c, d)
    ensures Explained(cs + [c], c)
  {
    assert c in cs + [c];
    forall p | c.start < p < c.end ensures Straddles(cs + [c], p) {
      StraddlesGrows(cs, c, p);
    }
    LinkedSelf(cs + [c], c);
  }

  lemma AbsorbTight(cs: seq<Candidate>, c: Candidate, span: Candidate)
    requires Tight(cs, span) && span.start <= c.start < span.end
    ensures Tight(cs + [c], Absorb(span, c))
  {
    var grown := Absorb(span, c);
    var first :| first in cs && InSpan(span, first) && first.start == span.start;
    var last :| last in cs && InSpan(span, last) && last.end == span.end;
    assert first in cs + [c] && last in cs + [c] && c in cs + [c];
    assert InSpan(grown, first) && InSpan(grown, last) && InSpan(grown, c);
    forall p | grown.start < p < grown.end ensures Straddles(cs + [c], p) {
      StraddlesGrows(cs, c, p);
    }
  }

  lemma AbsorbLabelled(cs: seq<Candidate>, c: Candidate, span: Candidate)
    requires Labelled(cs, span) && span.start <= c.start < span.end
    requires forall d | d in cs && InSpan(Absorb(span, c), d) :: InSpan(span, d)
    ensures Labelled(cs + [c], Absorb(span, c))
  {
    var d :| d in cs && InSpan(span, d) && d.name == span.name && d.text == span.text;
    assert d in cs + [c] && c in cs + [c];
    assert InSpan(Absorb(span, c), d) && InSpan(Absorb(span, c), c);
  }

  lemma AbsorbTogether(cs: seq<Candidate>, c: Candidate, span: Candidate)
    requires Tight(cs, span) && Together(cs, span) && span.start <= c.start < span.end && c.start < c.end
    requires forall d | d in cs :: d.start <= c.start
    requires forall d | d in cs && InSpan(Absorb(span, c), d) :: InSpan(span, d)
    ensures Together(cs + [c], Absorb(span, c))
  {
    var all := cs + [c];
    var last :| last in cs && InSpan(span, last) && last.end == span.end;
    assert Overlap(last, c);
    LinkedSelf(all, c);
    forall a | a in cs && InSpan(span, a) ensures Linked(all, a, c) && Linked(all, c, a) {
      LinkedGrows(cs, c, a, last);
      LinkedExtend(all, a, last, c);
      LinkedSymmetric(all, a, c);
    }
    forall a, b | a in cs && b in cs && InSpan(span, a) && InSpan(span, b) ensures Linked(all, a, b) {
      LinkedGrows(cs, c, a, b);
    }
  }

  lemma AbsorbExplained(cs: seq<Candidate>, c: Candidate, span: Candidate)
    requires Explained(cs, span) && NotBefore(cs, c) && span.start <= c.start < span.end
    requires forall d | d in cs && InSpan(Absorb(span, c), d) :: InSpan(span, d)
    ensures Explained(cs + [c], Absorb(span, c))
  {
    AbsorbTight(cs, c, span);
    AbsorbLabelled(cs, c, span);
    AbsorbTogether(cs, c, span);
  }

  lemma LastStart(cs: seq<Candidate>, last: Candidate, c: Candidate)
    requires Tight(cs, last) && forall d | d in cs :: d.start <= c.start
    ensures last.start <= c.start
  {
  }

  /** Growing the last span captures no candidate of an earlier span. */
  lemma GrowsAlone(cs: seq<Candidate>, spans: seq<Candidate>, c: Candidate)
    requires Separate(spans) && EachInSpan(cs, spans) && spans != [] && NonEmpty(cs)
    requires forall d | d in cs :: d.start <= c.start
    requires c.start < spans[|spans| - 1].end
    ensures forall d | d in cs && InSpan(Absorb(spans[|spans| - 1], c), d) :: InSpan(spans[|spans| - 1], d)
  {
    var last := spans[|spans| - 1];
    forall d | d in cs && InSpan(Absorb(last, c), d) ensures InSpan(last, d) {
      assert HasSpan(spans, d);
      var i :| 0 <= i < |spans| && InSpan(spans[i], d);
      if i < |spans| - 1 {
        assert spans[i].end <= last.start;
      }
    }
  }

  /** With all spans ending before it, a new span opens at `c` and holds nothing but `c`. */
  lemma OpenSeparate(cs: seq<Candidate>, spans: seq<Candidate>, c: Candidate)
    requires Separate(spans) && EachInSpan(cs, spans) && NonEmpty(cs) && c.start < c.end
    requires spans == [] || c.start >= spans[|spans| - 1].end
    ensures Separate(spans + [c])
    ensures forall i | 0 <= i < |spans| :: spans[i].end <= c.start
    ensures forall d | d in cs :: !InSpan(c, d)
  {
    forall i | 0 <= i < |spans| ensures spans[i].end <= c.start {
      assert i < |spans| - 1 ==> spans[i].end <= spans[|spans| - 1].start;
    }
    forall d | d in cs ensures !InSpan(c, d) {
      assert HasSpan(spans, d);
      var i :| 0 <= i < |spans| && InSpan(spans[i], d);
    }
  }

  lemma OpenInSpan(cs: seq<Candidate>, spans: seq<Candidate>, c: Candidate)
    requires EachInSpan(cs, spans)
    ensures EachInSpan(cs + [c], spans + [c])
  {
    var next := spans + [c];
    forall d | d in cs ensures HasSpan(next, d) {
      assert HasSpan(spans, d);
      var i :| 0 <= i < |spans| && InSpan(spans[i], d);
      assert InSpan(next[i], d);
    }
    assert InSpan(next[|spans|], c);
  }

  lemma OpenStep(cs: seq<Candidate>, spans: seq<Candidate>, c: Candidate)
    requires Merged(cs, spans) && NotBefore(cs, c)
    requires spans == [] || c.start >= spans[|spans| - 1].end
    ensures Merged(cs + [c], spans + [c])
  {
    var next := spans + [c];
    OpenSeparate(cs, spans, c);
    OpenInSpan(cs, spans, c);
    SpanOpened(cs, c);
    forall i | 0 <= i < |next| ensures Explained(cs + [c], next[i]) {
      if i < |spans| {
        EarlierSpanKept(cs, spans, c, i);
      }
    }
  }

  lemma EarlierSpanKept(cs: seq<Candidate>, spans: seq<Candidate>, c: Candidate, i: nat)
    requires EachExplained(cs, spans) && i < |spans| && spans[i].end <= c.start < c.end
    ensures Explained(cs + [c], spans[i])
  {
    assert Explained(cs, spans[i]);
    SpanKept(cs, c, spans[i]);
  }

  lemma AbsorbSeparate(spans: seq<Candidate>, c: Candidate)
    requires Separate(spans) && spans != [] && c.start < spans[|spans| - 1].end
    ensures Separate(MergeStep(spans, c))
  {
    var next := MergeStep(spans, c);
    forall i, j | 0 <= i < j < |next| ensures next[i].end <= next[j].start {
      assert spans[i].end <= spans[j].start;
      assert next[i] == spans[i];
    }
  }

  lemma AbsorbInSpan(cs: seq<Candidate>, spans: seq<Candidate>, c: Candidate)
    requires EachInSpan(cs, spans) && spans != [] && spans[|spans| - 1].start <= c.start < spans[|spans| - 1].end
    ensures EachInSpan(cs + [c], MergeStep(spans, c))
  {
    var next := MergeStep(spans, c);
    forall d | d in cs ensures HasSpan(next, d) {
      assert HasSpan(spans, d);
      var i :| 0 <= i < |spans| && InSpan(spans[i], d);
      assert InSpan(next[i], d);
    }
    assert InSpan(next[|spans| - 1], c);
  }

  lemma AbsorbEachExplained(cs: seq<Candidate>, spans: seq<Candidate>, c: Candidate)
    requires EachExplained(cs, spans) && Separate(spans) && NotBefore(cs, c) && spans != []
    requires spans[|spans| - 1].start <= c.start < spans[|spans| - 1].end
    requires forall d | d in cs && InSpan(Absorb(spans[|spans| - 1], c), d) :: InSpan(spans[|spans| - 1], d)
    ensures EachExplained(cs + [c], MergeStep(spans, c))
  {
    var n, next := |spans| - 1, MergeStep(spans, c);
    assert Explained(cs, spans[n]);
    AbsorbExplained(cs, c, spans[n]);
    forall i | 0 <= i < n ensures Explained(cs + [c], next[i]) {
      assert spans[i].end <= spans[n].start;
      assert Explained(cs, spans[i]);
      SpanKept(cs, c, spans[i]);
    }
  }

  lemma AbsorbStep(cs: seq<Candidate>, spans: seq<Candidate>, c: Candidate)
    requires Merged(cs, spans) && NotBefore(cs, c)
    requires spans != [] && c.start < spans[|spans| - 1].end
    ensures Merged(cs + [c], MergeStep(spans, c))
  {
    assert Explained(cs, spans[|spans| - 1]);
    LastStart(cs, spans[|spans| - 1], c);
    GrowsAlone(cs, spans, c);
    AbsorbSeparate(spans, c);
    AbsorbInSpan(cs, spans, c);
    AbsorbEachExplained(cs, spans, c);
  }

  lemma BeforeLast(cs: seq<Candidate>)
    requires SortedCandidates(cs) && NonEmpty(cs) && cs != []
    ensures SortedCandidates(cs[..|cs| - 1]) && NotBefore(cs[..|cs| - 1], cs[|cs| - 1])
  {
    var front, c := cs[..|cs| - 1], cs[|cs| - 1];
    assert forall i | 0 <= i < |front| :: front[i] == cs[i];
    forall d | d in front ensures d.start <= c.start && d.start < d.end {
      var i :| 0 <= i < |front| && front[i] == d;
      assert LessEq(cs[i], cs[|cs| - 1]);
      assert cs[i] in cs;
    }
    assert c in cs;
  }

  lemma {:induction false} MergeMerges(cs: seq<Candidate>)
    requires SortedCandidates(cs) && NonEmpty(cs)
    ensures Merged(cs, Merge(cs))
  {
    if cs != [] {
      var front, c := cs[..|cs| - 1], cs[|cs| - 1];
      assert cs == front + [c];
      BeforeLast(cs);
      MergeMerges(front);
      var spans := Merge(front);
      if spans == [] || c.start >= spans[|spans| - 1].end {
        OpenStep(front, spans, c);
      } else {
        AbsorbStep(front, spans, c);
      }
    }
  }

  // ----- Findings are the components -----

  /** A range shared by two spans makes them the same span. */
  lemma SharedPosition(spans: seq<Candidate>, i: nat, j: nat, p: int)
    requires Separate(spans) && i < |spans| && j < |spans|
    requires spans[i].start <= p < spans[i].end && spans[j].start <= p < spans[j].end
    ensures i == j
  {
  }

  lemma {:induction false} ChainInOneSpan(cs: seq<Candidate>, spans: seq<Candidate>, path: seq<Candidate>,
                                          i: nat, j: nat)
    requires Separate(spans) && EachInSpan(cs, spans) && NonEmpty(cs) && Chain(cs, path)
    requires i < |spans| && j < |spans| && InSpan(spans[i], path[0]) && InSpan(spans[j], path[|path| - 1])
    ensures i == j
    decreases |path|
  {
    var last := path[|path| - 1];
    assert last in cs;
    if |path| == 1 {
      SharedPosition(spans, i, j, last.start);
    } else {
      var front, previous := path[..|path| - 1], path[|path| - 2];
      assert previous in cs && HasSpan(spans, previous);
      assert Overlap(previous, last);
      var k :| 0 <= k < |spans| && InSpan(spans[k], previous);
      ChainInOneSpan(cs, spans, front, i, k);
      SharedPosition(spans, k, j, if previous.start < last.start then last.start else previous.start);
    }
  }

  lemma SameSpanIffLinked(cs: seq<Candidate>, spans: seq<Candidate>, i: nat, j: nat, a: Candidate, b: Candidate)
    requires Merged(cs, spans) && NonEmpty(cs) && a in cs && b in cs
    requires i < |spans| && j < |spans| && InSpan(spans[i], a) && InSpan(spans[j], b)
    ensures i == j <==> Linked(cs, a, b)
  {
    if i == j {
      assert Explained(cs, spans[i]);
    }
    if Linked(cs, a, b) {
      var path :| Chain(cs, path) && path[0] == a && path[|path| - 1] == b;
      ChainInOneSpan(cs, spans, path, i, j);
    }
  }

  lemma LinkedDependsOnMembers(cs: seq<Candidate>, ds: seq<Candidate>, a: Candidate, b: Candidate)
    requires forall c :: c in cs <==> c in ds
    ensures Linked(cs, a, b) <==> Linked(ds, a, b)
  {
    forall path ensures Chain(cs, path) <==> Chain(ds, path) {
    }
  }

  lemma MergeOfSort(cs: seq<Candidate>)
    requires NonEmpty(cs)
    ensures Merged(Sort(cs), Merge(Sort(cs))) && NonEmpty(Sort(cs))
    ensures forall c :: c in cs <==> c in Sort(cs)
  {
    SameMembers(cs, Sort(cs));
    SortSorts(cs);
    MergeMerges(Sort(cs));
  }

  /** The spans reported for candidates given in any order. */
  function Spans(cs: seq<Candidate>): seq<Candidate> { Merge(Sort(cs)) }

  predicate Inhabited(cs: seq<Candidate>, span: Candidate) { exists c :: c in cs && InSpan(span, c) }

  /** Spans are disjoint and in order, every candidate lies in one, and no span is without a candidate. */
  lemma SpansHoldCandidates(cs: seq<Candidate>)
    requires NonEmpty(cs)
    ensures Separate(Spans(cs)) && EachInSpan(cs, Spans(cs))
    ensures forall i {:trigger Inhabited(cs, Spans(cs)[i])} | 0 <= i < |Spans(cs)| :: Inhabited(cs, Spans(cs)[i])
  {
    MergeOfSort(cs);
    var spans, sorted := Spans(cs), Sort(cs);
    forall i | 0 <= i < |spans| ensures Inhabited(cs, spans[i]) {
      assert Explained(sorted, spans[i]);
      var c :| c in sorted && InSpan(spans[i], c) && c.start == spans[i].start;
      assert c in cs;
    }
  }

  lemma CandidateHasSpan(cs: seq<Candidate>, c: Candidate)
    requires NonEmpty(cs) && c in cs
    ensures HasSpan(Spans(cs), c)
  {
    SpansHoldCandidates(cs);
  }

  /** Candidates are reported together exactly when they are connected by overlaps: spans are components. */
  lemma SpansAreComponents(cs: seq<Candidate>, i: nat, j: nat, a: Candidate, b: Candidate)
    requires NonEmpty(cs) && a in cs && b in cs && i < |Spans(cs)| && j < |Spans(cs)|
    requires InSpan(Spans(cs)[i], a) && InSpan(Spans(cs)[j], b)
    ensures i == j <==> Linked(cs, a, b)
  {
    MergeOfSort(cs);
    SameSpanIffLinked(Sort(cs), Spans(cs), i, j, a, b);
    LinkedDependsOnMembers(cs, Sort(cs), a, b);
  }

  lemma {:induction false} DistinctBelow(indices: seq<nat>, n: nat)
    requires forall i | 0 <= i < |indices| :: indices[i] < n
    requires forall i, j | 0 <= i < j < |indices| :: indices[i] != indices[j]
    ensures |indices| <= n
  {
    assert indices != [] ==> indices[0] < n;
    if n == 0 {
    } else if i: nat :| i < |indices| && indices[i] == n - 1 {
      DistinctBelow(indices[..i] + indices[i + 1..], n - 1);
    } else {
      DistinctBelow(indices, n - 1);
    }
  }

  /** Some representative is linked to the candidate. */
  ghost predicate HasRep(cs: seq<Candidate>, reps: seq<Candidate>, c: Candidate) {
    exists k | 0 <= k < |reps| :: Linked(cs, c, reps[k])
  }

  /** The representatives are candidates, no two of them linked, and each candidate is linked to one. */
  ghost predicate Represent(cs: seq<Candidate>, reps: seq<Candidate>) {
    && (forall k | 0 <= k < |reps| :: reps[k] in cs)
    && (forall i, j | 0 <= i < j < |reps| :: !Linked(cs, reps[i], reps[j]))
    && forall c {:trigger HasRep(cs, reps, c)} | c in cs :: HasRep(cs, reps, c)
  }

  ghost function SpanOf(cs: seq<Candidate>, c: Candidate): (i: nat)
    requires NonEmpty(cs) && c in cs
    ensures i < |Spans(cs)| && InSpan(Spans(cs)[i], c)
  {
    CandidateHasSpan(cs, c);
    var i: nat :| i < |Spans(cs)| && InSpan(Spans(cs)[i], c);
    i
  }

  lemma SpanHasRep(cs: seq<Candidate>, reps: seq<Candidate>, i: nat) returns (k: nat)
    requires NonEmpty(cs) && Represent(cs, reps) && i < |Spans(cs)|
    ensures k < |reps| && SpanOf(cs, reps[k]) == i
  {
    SpansHoldCandidates(cs);
    assert Inhabited(cs, Spans(cs)[i]);
    var c :| c in cs && InSpan(Spans(cs)[i], c);
    assert HasRep(cs, reps, c);
    k :| 0 <= k < |reps| && Linked(cs, c, reps[k]);
    SpansAreComponents(cs, i, SpanOf(cs, reps[k]), c, reps[k]);
  }

  lemma RepsHaveOwnSpans(cs: seq<Candidate>, reps: seq<Candidate>, i: nat, j: nat)
    requires NonEmpty(cs) && Represent(cs, reps) && i < j < |reps|
    ensures SpanOf(cs, reps[i]) != SpanOf(cs, reps[j])
  {
    SpansAreComponents(cs, SpanOf(cs, reps[i]), SpanOf(cs, reps[j]), reps[i], reps[j]);
  }

  lemma RepsFitSpans(cs: seq<Candidate>, reps: seq<Candidate>)
    requires NonEmpty(cs) && Represent(cs, reps)
    ensures |reps| <= |Spans(cs)|
  {
    var spans: seq<nat> := [];
    for k := 0 to |reps|
      invariant |spans| == k && forall i | 0 <= i < k :: spans[i] == SpanOf(cs, reps[i])
    {
      spans := spans + [SpanOf(cs, reps[k])];
    }
    forall i, j | 0 <= i < j < |spans| ensures spans[i] != spans[j] {
      RepsHaveOwnSpans(cs, reps, i, j);
    }
    DistinctBelow(spans, |Spans(cs)|);
  }

  lemma SpansFitReps(cs: seq<Candidate>, reps: seq<Candidate>)
    requires NonEmpty(cs) && Represent(cs, reps)
    ensures |Spans(cs)| <= |reps|
  {
    var owners: seq<nat> := [];
    for i := 0 to |Spans(cs)|
      invariant |owners| == i
      invariant forall j | 0 <= j < i :: owners[j] < |reps| && SpanOf(cs, reps[owners[j]]) == j
    {
      var k := SpanHasRep(cs, reps, i);
      owners := owners + [k];
    }
    DistinctBelow(owners, |reps|);
  }

  /** There are as many findings as connected components of the overlap relation. */
  lemma FindingPerComponent(cs: seq<Candidate>, reps: seq<Candidate>)
    requires NonEmpty(cs) && Represent(cs, reps)
    ensures |FindingsOf(Spans(cs))| == |reps|
  {
    RepsFitSpans(cs, reps);
    SpansFitReps(cs, reps);
  }

  /** Each span carries the label and text of one of its candidates of least specificity number. */
  lemma LabelsAreMostSpecific(cs: seq<Candidate>, i: nat)
    requires NonEmpty(cs) && i < |Spans(cs)|
    ensures exists c :: c in cs && InSpan(Spans(cs)[i], c) && c.name == Spans(cs)[i].name && c.text == Spans(cs)[i].text
    ensures forall c | c in cs && InSpan(Spans(cs)[i], c) :: Specificity(Spans(cs)[i].name) <= Specificity(c.name)
  {
    MergeOfSort(cs);
    var span, sorted := Spans(cs)[i], Sort(cs);
    assert Explained(sorted, span);
    var c :| c in sorted && InSpan(span, c) && c.name == span.name && c.text == span.text;
    assert c in cs;
  }

  // ----- Which candidate labels a span -----

  /** A candidate ordered before `d` reaches at least as far from the span's start as `d` is long. */
  predicate ReachedBefore(cs: seq<Candidate>, span: Candidate, d: Candidate) {
    exists e :: e in cs && InSpan(span, e) && e != d && LessEq(e, d) && e.end - span.start >= Length(d)
  }

  /**
    Declaratively, the labelling candidate is one of the most specific of the span: the last of them that
    outreaches all that is ordered before it or, if none of the others does, the first.
   */
  predicate LabelOf(cs: seq<Candidate>, span: Candidate, l: Candidate) {
    && l in cs && InSpan(span, l)
    && forall d | d in cs && InSpan(span, d) ::
         && Specificity(l.name) <= Specificity(d.name)
         && (d != l && Specificity(l.name) == Specificity(d.name) ==>
               if LessEq(l, d) then ReachedBefore(cs, span, d) else !ReachedBefore(cs, span, l))
  }

  ghost predicate HasLabel(cs: seq<Candidate>, span: Candidate) {
    exists l :: LabelOf(cs, span, l) && l.name == span.name && l.text == span.text
  }

  ghost predicate EachHasLabel(cs: seq<Candidate>, spans: seq<Candidate>) {
    forall i {:trigger HasLabel(cs, spans[i])} | 0 <= i < |spans| :: HasLabel(cs, spans[i])
  }

  lemma LabelIsUnique(cs: seq<Candidate>, span: Candidate, l: Candidate, m: Candidate, text: string)
    requires LabelOf(cs, span, l) && LabelOf(cs, span, m) && AllValidIn(cs, text)
    ensures l == m
  {
    LessEqTotal(l, m);
    if LessEq(l, m) && LessEq(m, l) {
      LessEqAntisymmetric(l, m, text);
    }
  }

  /** A later candidate that falls outside the span, or joins it last, does not reach before an earlier one. */
  lemma ReachKept(cs: seq<Candidate>, c: Candidate, span: Candidate, grown: Candidate, d: Candidate, text: string)
    requires AllValidIn(cs + [c], text) && d in cs && InSpan(span, d) && grown.start == span.start
    requires forall e | e in cs :: InSpan(grown, e) <==> InSpan(span, e)
    requires !InSpan(grown, c) || LessEq(d, c)
    ensures ReachedBefore(cs + [c], grown, d) <==> ReachedBefore(cs, span, d)
  {
    assert c in cs + [c] && d in cs + [c];
    if LessEq(d, c) && LessEq(c, d) {
      LessEqAntisymmetric(c, d, text);
    }
    forall e | e in cs ensures e in cs + [c] {
    }
  }

  lemma LabelKept(cs: seq<Candidate>, c: Candidate, span: Candidate, text: string)
    requires AllValidIn(cs + [c], text) && HasLabel(cs, span) && !InSpan(span, c)
    ensures HasLabel(cs + [c], span)
  {
    var l :| LabelOf(cs, span, l) && l.name == span.name && l.text == span.text;
    forall d | d in cs && InSpan(span, d) ensures ReachedBefore(cs + [c], span, d) <==> ReachedBefore(cs, span, d) {
      ReachKept(cs, c, span, span, d, text);
    }
    assert LabelOf(cs + [c], span, l);
  }

  lemma LabelTaken(cs: seq<Candidate>, c: Candidate, span: Candidate, text: string)
    requires AllValidIn(cs + [c], text) && HasLabel(cs, span) && Relabels(span, c) && span.start <= c.start
    requires forall d | d in cs && InSpan(Absorb(span, c), d) :: InSpan(span, d)
    ensures LabelOf(cs + [c], Absorb(span, c), c)
  {
    var l :| LabelOf(cs, span, l) && l.name == span.name && l.text == span.text;
    forall d | d in cs && InSpan(span, d) && Specificity(d.name) == Specificity(c.name) ensures Length(d) < Length(c) {
    }
  }

  lemma LabelStays(cs: seq<Candidate>, c: Candidate, span: Candidate, text: string)
    requires AllValidIn(cs + [c], text) && HasLabel(cs, span) && !Relabels(span, c) && Tight(cs, span)
    requires forall d | d in cs :: LessEq(d, c)
    requires forall d | d in cs && InSpan(Absorb(span, c), d) :: InSpan(span, d)
    ensures HasLabel(cs + [c], Absorb(span, c))
  {
    var all, grown := cs + [c], Absorb(span, c);
    var l :| LabelOf(cs, span, l) && l.name == span.name && l.text == span.text;
    forall d | d in cs && InSpan(span, d) ensures ReachedBefore(all, grown, d) <==> ReachedBefore(cs, span, d) {
      ReachKept(cs, c, span, grown, d, text);
    }
    if Specificity(c.name) == Specificity(l.name) && c != l {
      StaysOutreached(cs, c, span, l);
    }
    assert LabelOf(all, grown, l);
  }

  lemma StaysOutreached(cs: seq<Candidate>, c: Candidate, span: Candidate, l: Candidate)
    requires LabelOf(cs, span, l) && Tight(cs, span) && c != l && Specificity(c.name) == Specificity(l.name)
    requires Length(c) <= Length(span) && forall d | d in cs :: LessEq(d, c)
    ensures ReachedBefore(cs + [c], Absorb(span, c), c)
  {
    if c in cs && InSpan(span, c) {
      var e :| e in cs && InSpan(span, e) && e != c && LessEq(e, c) && e.end - span.start >= Length(c);
      assert e in cs + [c];
    } else {
      var last :| last in cs && InSpan(span, last) && last.end == span.end;
      assert last in cs + [c];
    }
  }

  lemma MergeStepLabels(cs: seq<Candidate>, spans: seq<Candidate>, c: Candidate, text: string)
    requires Merged(cs, spans) && EachHasLabel(cs, spans) && NotBefore(cs, c) && AllValidIn(cs + [c], text)
    requires forall d | d in cs :: LessEq(d, c)
    ensures EachHasLabel(cs + [c], MergeStep(spans, c))
  {
    var next, n := MergeStep(spans, c), |spans| - 1;
    forall i | 0 <= i < |next| ensures HasLabel(cs + [c], next[i]) {
      if i < n || (i == n && c.start >= spans[n].end) {
        assert i < n ==> spans[i].end <= spans[n].start;
        assert Explained(cs, spans[n]);
        assert c in cs + [c];
        LabelKept(cs, c, spans[i], text);
      } else if i > n {
        NewSpanLabel(cs, spans, c);
      } else {
        assert Explained(cs, spans[n]);
        GrowsAlone(cs, spans, c);
        if Relabels(spans[n], c) {
          LabelTaken(cs, c, spans[n], text);
        } else {
          LabelStays(cs, c, spans[n], text);
        }
      }
    }
  }

  lemma NewSpanLabel(cs: seq<Candidate>, spans: seq<Candidate>, c: Candidate)
    requires Separate(spans) && EachInSpan(cs, spans) && c.start < c.end && NonEmpty(cs)
    requires spans == [] || c.start >= spans[|spans| - 1].end
    ensures HasLabel(cs + [c], c)
  {
    forall d | d in cs ensures !InSpan(c, d) {
      assert HasSpan(spans, d);
      var i :| 0 <= i < |spans| && InSpan(spans[i], d);
      assert i < |spans| - 1 ==> spans[i].end <= spans[|spans| - 1].start;
    }
    assert LabelOf(cs + [c], c, c);
  }

  lemma {:induction false} MergeLabels(cs: seq<Candidate>, text: string)
    requires SortedCandidates(cs) && AllValidIn(cs, text)
    ensures EachHasLabel(cs, Merge(cs))
  {
    if cs != [] {
      var front, c := cs[..|cs| - 1], cs[|cs| - 1];
      assert cs == front + [c];
      BeforeLast(cs);
      MergeLabels(front, text);
      MergeMerges(front);
      forall d | d in front ensures LessEq(d, c) {
        var i :| 0 <= i < |front| && front[i] == d;
        assert LessEq(cs[i], cs[|cs| - 1]);
      }
      MergeStepLabels(front, Merge(front), c, text);
    }
  }

  /** A finding names exactly the declared labelling candidate of its component. */
  lemma LabelIsExact(cs: seq<Candidate>, i: nat, text: string)
    requires AllValidIn(cs, text) && i < |Spans(cs)|
    ensures HasLabel(cs, Spans(cs)[i])
    ensures forall l | LabelOf(cs, Spans(cs)[i], l) :: l.name == Spans(cs)[i].name && l.text == Spans(cs)[i].text
  {
    var span, sorted := Spans(cs)[i], Sort(cs);
    MergeOfSort(cs);
    SortSorts(cs);
    MergeLabels(sorted, text);
    assert HasLabel(sorted, span);
    var l :| LabelOf(sorted, span, l) && l.name == span.name && l.text == span.text;
    forall d ensures ReachedBefore(sorted, span, d) <==> ReachedBefore(cs, span, d) {
    }
    assert LabelOf(cs, span, l);
    forall m | LabelOf(cs, span, m) ensures m == l {
      LabelIsUnique(cs, span, l, m, text);
    }
  }

  // ----- When the label is a longest match -----

  predicate MostSpecific(cs: seq<Candidate>, span: Candidate, c: Candidate) {
    c in cs && InSpan(span, c) && forall d | d in cs && InSpan(span, d) :: Specificity(c.name) <= Specificity(d.name)
  }

  /** No most specific candidate of the span is longer than the text that the finding reports. */
  predicate ReportsLongest(cs: seq<Candidate>, span: Candidate) {
    forall d | d in cs && MostSpecific(cs, span, d) :: Length(d) <= |span.text|
  }

  predicate FirstMostSpecific(cs: seq<Candidate>, span: Candidate, f: Candidate) {
    MostSpecific(cs, span, f) && forall d | d in cs && MostSpecific(cs, span, d) :: LessEq(f, d)
  }

  /** Of the longest most specific candidates, the one ordered first. */
  predicate FirstLongest(cs: seq<Candidate>, span: Candidate, f: Candidate) {
    && MostSpecific(cs, span, f)
    && forall d | d in cs && MostSpecific(cs, span, d) ::
         Length(d) < Length(f) || (Length(d) == Length(f) && LessEq(f, d))
  }

  lemma LabelWins(cs: seq<Candidate>, span: Candidate, l: Candidate, f: Candidate, text: string)
    requires AllValidIn(cs, text) && LabelOf(cs, span, l) && FirstLongest(cs, span, f)
    requires FirstMostSpecific(cs, span, f) || !ReachedBefore(cs, span, f)
    ensures l == f
  {
    assert MostSpecific(cs, span, l);
    LessEqTotal(l, f);
    if LessEq(l, f) && LessEq(f, l) {
      LessEqAntisymmetric(l, f, text);
    }
  }

  lemma LongestLabelWasFree(cs: seq<Candidate>, span: Candidate, l: Candidate, text: string)
    requires AllValidIn(cs, text) && LabelOf(cs, span, l)
    requires forall d | d in cs && MostSpecific(cs, span, d) :: Length(d) <= Length(l)
    ensures FirstLongest(cs, span, l) && (FirstMostSpecific(cs, span, l) || !ReachedBefore(cs, span, l))
  {
    forall d | d in cs && MostSpecific(cs, span, d)
      ensures Length(d) == Length(l) ==> LessEq(l, d)
      ensures LessEq(l, d) || !ReachedBefore(cs, span, l)
    {
      LessEqTotal(l, d);
    }
  }

  /**
    A finding reports a longest most specific match exactly if the first of the longest is ordered before all
    equally specific ones, or is longer than everything before it in its span reaches.
   */
  lemma LabelIsLongestIff(cs: seq<Candidate>, i: nat, text: string)
    requires AllValidIn(cs, text) && i < |Spans(cs)|
    ensures var span := Spans(cs)[i];
            ReportsLongest(cs, span)
            <==> exists f :: FirstLongest(cs, span, f)
                             && (FirstMostSpecific(cs, span, f) || !ReachedBefore(cs, span, f))
  {
    var span := Spans(cs)[i];
    LabelIsExact(cs, i, text);
    var l :| LabelOf(cs, span, l) && l.name == span.name && l.text == span.text;
    assert ValidIn(l, text) && |span.text| == Length(l);
    if ReportsLongest(cs, span) {
      LongestLabelWasFree(cs, span, l, text);
    }
    forall f | FirstLongest(cs, span, f) && (FirstMostSpecific(cs, span, f) || !ReachedBefore(cs, span, f))
      ensures ReportsLongest(cs, span)
    {
      LabelWins(cs, span, l, f, text);
    }
  }

  /** Three equally specific matches in a row: the last is the longest, and the first names the finding. */
  lemma LongestOfThreeLoses(text: string, x: string, y: string, z: string)
    requires |text| >= 20 && Specificity(x) == Specificity(y) == Specificity(z)
    ensures var cs := [CandidateAt(x, Range(0, 10), text), CandidateAt(y, Range(5, 14), text),
                       CandidateAt(z, Range(8, 20), text)];
            && Spans(cs) == [Candidate(x, 0, 20, text[0..10])]
            && MostSpecific(cs, Spans(cs)[0], cs[2]) && Length(cs[2]) == 12
            && !ReportsLongest(cs, Spans(cs)[0])
  {
    var a, b, c := CandidateAt(x, Range(0, 10), text), CandidateAt(y, Range(5, 14), text),
                   CandidateAt(z, Range(8, 20), text);
    var span := Candidate(x, 0, 20, text[0..10]);
    ThreeInARow(a, b, c);
    assert Absorb(a, b) == Candidate(x, 0, 14, a.text) && Absorb(Absorb(a, b), c) == span;
    LastOfThreeIsMostSpecific(a, b, c, span);
  }

  lemma LastOfThreeIsMostSpecific(a: Candidate, b: Candidate, c: Candidate, span: Candidate)
    requires Specificity(a.name) == Specificity(b.name) == Specificity(c.name) && InSpan(span, c)
    ensures MostSpecific([a, b, c], span, c)
    ensures Length(c) > |span.text| ==> !ReportsLongest([a, b, c], span)
  {
    assert c in [a, b, c];
  }

  /** The same with patterns of the program's table. */
  lemma LongestMatchLoses(text: string)
    requires |text| >= 20
    ensures var cs := [CandidateAt("aws_access_key_id", Range(0, 10), text),
                       CandidateAt("google_api_key", Range(5, 14), text),
                       CandidateAt("slack_token", Range(8, 20), text)];
            && Spans(cs) == [Candidate("aws_access_key_id", 0, 20, text[0..10])]
            && MostSpecific(cs, Spans(cs)[0], cs[2]) && Length(cs[2]) == 12
            && !ReportsLongest(cs, Spans(cs)[0])
  {
    LongestOfThreeLoses(text, "aws_access_key_id", "google_api_key", "slack_token");
  }

  lemma SortOfThree(a: Candidate, b: Candidate, c: Candidate)
    requires a.start < b.start < c.start
    ensures Sort([a, b, c]) == [a, b, c]
  {
    assert [c][1..] == [] && Sort([c]) == [c];
    assert [b, c][1..] == [c] && Sort([b, c]) == [b, c];
    assert [a, b, c][1..] == [b, c];
  }

  lemma ThreeInARow(a: Candidate, b: Candidate, c: Candidate)
    requires a.start < b.start < c.start < a.end
    ensures Spans([a, b, c]) == [Absorb(Absorb(a, b), c)]
  {
    SortOfThree(a, b, c);
    assert [a][..0] == [] && Merge([a]) == [a];
    assert [a, b][..1] == [a] && Merge([a, b]) == [Absorb(a, b)];
    assert [a, b, c][..2] == [a, b] && Merge([a, b, c]) == [Absorb(Absorb(a, b), c)];
  }

  // ----- Splicing -----

  /** A component of the overlap relation starts at `p`. */
  predicate ComponentStarts(cs: seq<Candidate>, p: int) {
    (exists i | 0 <= i < |cs| :: cs[i].start == p) && !Straddles(cs, p)
  }

  /** The reference, position by position: the replacement where a component starts, the character if uncovered. */
  function Emit(text: string, cs: seq<Candidate>, replacement: string, p: nat): string
    requires p < |text|
  {
    (if ComponentStarts(cs, p) then replacement else "") + (if Covers(cs, p) then "" else [text[p]])
  }

  function Reference(text: string, cs: seq<Candidate>, replacement: string, n: nat): string
    requires n <= |text|
  {
    if n == 0 then "" else Reference(text, cs, replacement, n - 1) + Emit(text, cs, replacement, n - 1)
  }

  lemma StartIsUnstraddled(cs: seq<Candidate>, spans: seq<Candidate>, i: nat)
    requires Merged(cs, spans) && i < |spans|
    ensures !Straddles(cs, spans[i].start)
  {
    var p := spans[i].start;
    forall k | 0 <= k < |cs| ensures !(cs[k].start < p < cs[k].end) {
      assert cs[k] in cs && HasSpan(spans, cs[k]);
      var j :| 0 <= j < |spans| && InSpan(spans[j], cs[k]);
    }
  }

  lemma StartHasSpan(cs: seq<Candidate>, spans: seq<Candidate>, k: nat) returns (i: nat)
    requires Merged(cs, spans) && NonEmpty(cs) && k < |cs| && !Straddles(cs, cs[k].start)
    ensures i < |spans| && spans[i].start == cs[k].start
  {
    assert cs[k] in cs && HasSpan(spans, cs[k]);
    i :| 0 <= i < |spans| && InSpan(spans[i], cs[k]);
    assert Explained(cs, spans[i]);
  }

  lemma SpanStarts(cs: seq<Candidate>, spans: seq<Candidate>, p: int)
    requires Merged(cs, spans) && NonEmpty(cs)
    ensures ComponentStarts(cs, p) <==> exists i | 0 <= i < |spans| :: spans[i].start == p
  {
    if i :| 0 <= i < |spans| && spans[i].start == p {
      assert Explained(cs, spans[i]);
      var c :| c in cs && InSpan(spans[i], c) && c.start == p;
      StartIsUnstraddled(cs, spans, i);
    }
    if ComponentStarts(cs, p) {
      var k :| 0 <= k < |cs| && cs[k].start == p;
      var i := StartHasSpan(cs, spans, k);
    }
  }

  /** Merged spans cover exactly the positions of the candidates. */
  lemma SpanCovers(cs: seq<Candidate>, spans: seq<Candidate>, p: int)
    requires Merged(cs, spans) && NonEmpty(cs)
    ensures Covers(cs, p) <==> Covers(spans, p)
  {
    if Covers(cs, p) {
      var k :| 0 <= k < |cs| && cs[k].start <= p < cs[k].end;
      assert cs[k] in cs && HasSpan(spans, cs[k]);
      var i :| 0 <= i < |spans| && InSpan(spans[i], cs[k]);
      assert spans[i].start <= p < spans[i].end;
    }
    if Covers(spans, p) {
      var i :| 0 <= i < |spans| && spans[i].start <= p < spans[i].end;
      assert Explained(cs, spans[i]);
      SpanPositionsCovered(cs, spans[i], p);
    }
  }

  lemma SpanPositionsCovered(cs: seq<Candidate>, span: Candidate, p: int)
    requires Tight(cs, span) && NonEmpty(cs) && span.start <= p < span.end
    ensures Covers(cs, p)
  {
    if p == span.start {
      var c :| c in cs && InSpan(span, c) && c.start == span.start;
      var k :| 0 <= k < |cs| && cs[k] == c;
    } else {
      assert Straddles(cs, p);
    }
  }

  /** A stretch with no span in it is copied. */
  lemma {:induction false} CopiedStretch(text: string, cs: seq<Candidate>, replacement: string, from: nat, to: nat)
    requires from <= to <= |text|
    requires forall p | from <= p < to :: !ComponentStarts(cs, p) && !Covers(cs, p)
    ensures Reference(text, cs, replacement, to) == Reference(text, cs, replacement, from) + text[from..to]
  {
    if from < to {
      CopiedStretch(text, cs, replacement, from, to - 1);
      assert text[from..to] == text[from..to - 1] + [text[to - 1]];
    } else {
      assert text[from..to] == "";
    }
  }

  /** A span is replaced once. */
  lemma {:induction false} ReplacedStretch(text: string, cs: seq<Candidate>, replacement: string, from: nat, to: nat)
    requires from < to <= |text|
    requires ComponentStarts(cs, from) && forall p | from <= p < to :: Covers(cs, p)
    requires forall p | from < p < to :: !ComponentStarts(cs, p)
    ensures Reference(text, cs, replacement, to) == Reference(text, cs, replacement, from) + replacement
  {
    if from + 1 < to {
      ReplacedStretch(text, cs, replacement, from, to - 1);
    }
  }

  predicate WithinText(spans: seq<Candidate>, text: string) { forall i | 0 <= i < |spans| :: spans[i].end <= |text| }

  /** The end of the span before the k-th, where the cursor stands. */
  function CursorAt(spans: seq<Candidate>, k: nat): nat
    requires k <= |spans|
  {
    if k == 0 then 0 else spans[k - 1].end
  }

  lemma SpliceStep(text: string, cs: seq<Candidate>, spans: seq<Candidate>, replacement: string, k: nat)
    requires Merged(cs, spans) && NonEmpty(cs) && WithinText(spans, text) && k < |spans|
    ensures CursorAt(spans, k) <= spans[k].start < spans[k].end <= |text|
    ensures Reference(text, cs, replacement, spans[k].end)
            == Reference(text, cs, replacement, CursorAt(spans, k))
               + text[CursorAt(spans, k)..spans[k].start] + replacement
  {
    var cursor, span := CursorAt(spans, k), spans[k];
    forall p | cursor <= p < span.start ensures !ComponentStarts(cs, p) && !Covers(cs, p) {
      BetweenSpans(spans, k, p);
      SpanStarts(cs, spans, p);
      SpanCovers(cs, spans, p);
    }
    CopiedStretch(text, cs, replacement, cursor, span.start);
    forall p | span.start <= p < span.end ensures Covers(cs, p) && (p > span.start ==> !ComponentStarts(cs, p)) {
      SpanCovers(cs, spans, p);
      SpanStarts(cs, spans, p);
      if i :| 0 <= i < |spans| && spans[i].start == p {
        SharedPosition(spans, i, k, p);
      }
    }
    SpanStarts(cs, spans, span.start);
    ReplacedStretch(text, cs, replacement, span.start, span.end);
  }

  /** No span starts at or covers a position between two neighbours, or after the last. */
  lemma BetweenSpans(spans: seq<Candidate>, k: nat, p: int)
    requires Separate(spans) && k <= |spans| && CursorAt(spans, k) <= p && (k < |spans| ==> p < spans[k].start)
    ensures !Covers(spans, p) && forall i | 0 <= i < |spans| :: spans[i].start != p
  {
    forall i | 0 <= i < |spans| ensures spans[i].start != p && !(spans[i].start <= p < spans[i].end) {
      if i < k {
        assert spans[i].end <= CursorAt(spans, k);
      } else if i > k {
        assert spans[k].end <= spans[i].start;
      }
    }
  }

  lemma SpliceTail(text: string, cs: seq<Candidate>, spans: seq<Candidate>, replacement: string)
    requires Merged(cs, spans) && NonEmpty(cs) && WithinText(spans, text)
    ensures CursorAt(spans, |spans|) <= |text|
    ensures Reference(text, cs, replacement, |text|)
            == Reference(text, cs, replacement, CursorAt(spans, |spans|)) + text[CursorAt(spans, |spans|)..]
  {
    var cursor := CursorAt(spans, |spans|);
    forall p | cursor <= p < |text| ensures !ComponentStarts(cs, p) && !Covers(cs, p) {
      BetweenSpans(spans, |spans|, p);
      SpanStarts(cs, spans, p);
      SpanCovers(cs, spans, p);
    }
    CopiedStretch(text, cs, replacement, cursor, |text|);
  }

  /** The cursor loop computes the reference; the cursor never passes the next span. */
  method Splice(text: string, selected: seq<Candidate>, replacement: string, ghost cs: seq<Candidate>)
      returns (redacted: string)
    requires Merged(cs, selected) && NonEmpty(cs) && WithinText(selected, text)
    ensures redacted == Reference(text, cs, replacement, |text|)
  {
    redacted := "";
    var cursor := 0;
    for k := 0 to |selected|
      invariant cursor == CursorAt(selected, k) && cursor <= |text|
      invariant redacted == Reference(text, cs, replacement, cursor)
    {
      SpliceStep(text, cs, selected, replacement, k);
      redacted := redacted + text[cursor..selected[k].start];
      redacted := redacted + replacement;
      cursor := selected[k].end;
    }
    SpliceTail(text, cs, selected, replacement);
    redacted := redacted + text[cursor..];
  }

  function TotalLength(spans: seq<Candidate>): int {
    if spans == [] then 0 else TotalLength(spans[..|spans| - 1]) + Length(spans[|spans| - 1])
  }

  lemma {:induction false} ReferenceLengthUpTo(text: string, cs: seq<Candidate>, spans: seq<Candidate>,
                                              replacement: string, k: nat)
    requires Merged(cs, spans) && NonEmpty(cs) && WithinText(spans, text) && k <= |spans|
    ensures CursorAt(spans, k) <= |text|
    ensures |Reference(text, cs, replacement, CursorAt(spans, k))|
            == CursorAt(spans, k) - TotalLength(spans[..k]) + k * |replacement|
  {
    if k > 0 {
      ReferenceLengthUpTo(text, cs, spans, replacement, k - 1);
      SpliceStep(text, cs, spans, replacement, k - 1);
      assert spans[..k][..k - 1] == spans[..k - 1];
      assert k * |replacement| == (k - 1) * |replacement| + |replacement|;
    }
  }

  // ----- The whole detection -----

  predicate IsLead(c: char) { !('\U{80}' <= c <= '\U{BF}') }

  function CharCount(s: string): nat {
    if s == "" then 0 else CharCount(s[..|s| - 1]) + if IsLead(s[|s| - 1]) then 1 else 0
  }

  /** The longest prefix with at most `n` characters. */
  function TakeChars(s: string, n: nat): (r: string)
    ensures r <= s && CharCount(r) <= n
    decreases |s|
  {
    if CharCount(s) <= n then s else TakeChars(s[..|s| - 1], n)
  }

  function Preview(text: string): string { if CharCount(text) > 8 then TakeChars(text, 8) + "..." else text }

  function FindingsOf(spans: seq<Candidate>): (r: seq<Finding>)
    ensures |r| == |spans|
  {
    seq(|spans|, i requires 0 <= i < |spans| => Finding(spans[i].name, Preview(spans[i].text)))
  }

  /** The characters of a text in UTF-8: its bytes that do not continue one. */
  function Characters(s: string): nat { |Leads(s)| }

  function Leads(s: string): set<int> { set i | 0 <= i < |s| && !(0x80 <= s[i] as int <= 0xBF) }

  /** A text of at most eight characters as it is, else its first eight characters and an ellipsis. */
  ghost predicate IsPreview(preview: string, text: string) {
    if Characters(text) <= 8 then preview == text
    else
      exists n | 0 <= n < |text| ::
        Characters(text[..n]) == 8 && !(0x80 <= text[n] as int <= 0xBF) && preview == text[..n] + "..."
  }

  lemma {:induction false} CharCountCounts(s: string)
    ensures CharCount(s) == Characters(s)
  {
    if s != "" {
      var front := s[..|s| - 1];
      CharCountCounts(front);
      assert Leads(s) == Leads(front) + if IsLead(s[|s| - 1]) then {|s| - 1} else {};
    }
  }

  lemma {:induction false} TakeCharsTakes(s: string, n: nat)
    requires CharCount(s) > n
    ensures var p := TakeChars(s, n);
            |p| < |s| && p == s[..|p|] && CharCount(p) == n && IsLead(s[|p|])
  {
    var front := s[..|s| - 1];
    if CharCount(front) > n {
      TakeCharsTakes(front, n);
      assert front[..|TakeChars(front, n)|] == s[..|TakeChars(front, n)|];
    }
  }

  lemma PreviewIsPreview(text: string)
    ensures IsPreview(Preview(text), text)
  {
    CharCountCounts(text);
    if CharCount(text) > 8 {
      TakeCharsTakes(text, 8);
      CharCountCounts(TakeChars(text, 8));
      var n := |TakeChars(text, 8)|;
      assert Characters(text[..n]) == 8;
    }
  }

  /** What detection returns, without the loops. */
  function Detected(text: string, cs: seq<Candidate>, redact: bool, replacement: string): (seq<Finding>, string) {
    (FindingsOf(Spans(cs)), if redact then Reference(text, cs, replacement, |text|) else text)
  }

  lemma SpansWithinText(text: string, cs: seq<Candidate>)
    requires AllValidIn(cs, text)
    ensures NonEmpty(cs) && WithinText(Spans(cs), text)
  {
    MergeOfSort(cs);
    var spans, sorted := Spans(cs), Sort(cs);
    forall i | 0 <= i < |spans| ensures spans[i].end <= |text| {
      assert Explained(sorted, spans[i]);
      var c :| c in sorted && InSpan(spans[i], c) && c.end == spans[i].end;
      assert c in cs;
    }
  }

  lemma ReferenceDependsOnMembers(text: string, cs: seq<Candidate>, ds: seq<Candidate>, replacement: string, n: nat)
    requires n <= |text| && forall c :: c in cs <==> c in ds
    ensures Reference(text, cs, replacement, n) == Reference(text, ds, replacement, n)
  {
    if n > 0 {
      ReferenceDependsOnMembers(text, cs, ds, replacement, n - 1);
      MembersDecide(cs, ds, n - 1);
      MembersDecide(ds, cs, n - 1);
    }
  }

  lemma MembersDecide(cs: seq<Candidate>, ds: seq<Candidate>, p: int)
    requires forall c | c in cs :: c in ds
    ensures Covers(cs, p) ==> Covers(ds, p)
    ensures Straddles(cs, p) ==> Straddles(ds, p)
    ensures (exists i | 0 <= i < |cs| :: cs[i].start == p) ==> exists i | 0 <= i < |ds| :: ds[i].start == p
  {
    forall i | 0 <= i < |cs| ensures exists k :: 0 <= k < |ds| && ds[k] == cs[i] {
      assert cs[i] in ds;
    }
  }

  /** Without candidates the reference is the text. */
  lemma NothingToRedact(text: string, replacement: string)
    ensures Reference(text, [], replacement, |text|) == text
  {
    CopiedStretch(text, [], replacement, 0, |text|);
    assert text[0..] == text;
  }

  method DetectAndRedact(text: string, patterns: seq<PatternHits>, enabled: string -> bool, redact: bool,
                         redactionText: string)
      returns (findings: seq<Finding>, redacted: string)
    requires ValidHits(patterns, text)
    ensures var cs := CandidatesOf(patterns, enabled, text);
            && |findings| == |Spans(cs)|
            && forall i, l | 0 <= i < |findings| && l in cs && LabelOf(cs, Spans(cs)[i], l) ::
                 findings[i].piiType == l.name && IsPreview(findings[i].preview, l.text)
    ensures !redact ==> redacted == text
    ensures redact ==> redacted == Reference(text, CandidatesOf(patterns, enabled, text), redactionText, |text|)
    ensures (findings, redacted) == Detected(text, CandidatesOf(patterns, enabled, text), redact, redactionText)
  {
    var candidates := CollectCandidates(patterns, enabled, text);
    SpansWithinText(text, candidates);
    MergeOfSort(candidates);
    forall i, l | 0 <= i < |Spans(candidates)| && l in candidates && LabelOf(candidates, Spans(candidates)[i], l)
      ensures FindingsOf(Spans(candidates))[i].piiType == l.name
      ensures IsPreview(FindingsOf(Spans(candidates))[i].preview, l.text)
    {
      LabelIsExact(candidates, i, text);
      PreviewIsPreview(l.text);
    }
    var selected := MergeOverlaps(Sort(candidates));
    findings := FindingsOf(selected);
    if redact && selected != [] {
      redacted := Splice(text, selected, redactionText, Sort(candidates));
      ReferenceDependsOnMembers(text, candidates, Sort(candidates), redactionText, |text|);
    } else {
      redacted := text;
      if candidates == [] {
        NothingToRedact(text, redactionText);
      } else {
        assert candidates[0] in candidates && HasSpan(Spans(candidates), candidates[0]);
      }
    }
  }

  /** The length of the redacted text: each span goes, one replacement comes. */
  lemma RedactedLength(text: string, cs: seq<Candidate>, replacement: string)
    requires AllValidIn(cs, text)
    ensures |Detected(text, cs, true, replacement).1|
            == |text| - TotalLength(Spans(cs)) + |Spans(cs)| * |replacement|
  {
    SpansWithinText(text, cs);
    MergeOfSort(cs);
    var spans, sorted := Spans(cs), Sort(cs);
    ReferenceDependsOnMembers(text, cs, sorted, replacement, |text|);
    ReferenceLengthUpTo(text, sorted, spans, replacement, |spans|);
    SpliceTail(text, sorted, spans, replacement);
    assert spans[..|spans|] == spans;
  }

  // ----- The result does not depend on the order of the patterns -----

  lemma HitsConcat(a: seq<PatternHits>, b: seq<PatternHits>, text: string)
    ensures ValidHits(a + b, text) <==> ValidHits(a, text) && ValidHits(b, text)
  {
    forall p ensures p in a + b <==> p in a || p in b {
    }
  }

  lemma {:induction false} CandidatesConcat(a: seq<PatternHits>, b: seq<PatternHits>, enabled: string -> bool,
                                            text: string)
    requires ValidHits(a, text) && ValidHits(b, text) && ValidHits(a + b, text)
    ensures CandidatesOf(a + b, enabled, text) == CandidatesOf(a, enabled, text) + CandidatesOf(b, enabled, text)
  {
    if b == [] {
      assert a + b == a;
    } else {
      var front, last := b[..|b| - 1], b[|b| - 1];
      assert (a + b)[..|a + b| - 1] == a + front;
      assert (a + b)[|a + b| - 1] == last;
      assert b == front + [last];
      HitsConcat(front, [last], text);
      HitsConcat(a, front, text);
      CandidatesConcat(a, front, enabled, text);
    }
  }

  /** Taking one pattern out takes its candidates out. */
  lemma CandidatesAround(x: seq<PatternHits>, p: PatternHits, y: seq<PatternHits>, enabled: string -> bool,
                         text: string)
    requires ValidHits(x, text) && ValidHits([p], text) && ValidHits(y, text)
    ensures ValidHits(x + [p] + y, text) && ValidHits(x + y, text)
    ensures multiset(CandidatesOf(x + [p] + y, enabled, text))
            == multiset(CandidatesOf(x + y, enabled, text)) + multiset(CandidatesOf([p], enabled, text))
  {
    HitsConcat(x, [p], text);
    HitsConcat(x + [p], y, text);
    HitsConcat(x, y, text);
    CandidatesConcat(x, [p], enabled, text);
    CandidatesConcat(x + [p], y, enabled, text);
    CandidatesConcat(x, y, enabled, text);
  }

  lemma SplitAround(ps: seq<PatternHits>, i: nat, enabled: string -> bool, text: string)
      returns (rest: seq<PatternHits>)
    requires ValidHits(ps, text) && i < |ps|
    ensures |rest| == |ps| - 1 && multiset(rest) == multiset(ps) - multiset{ps[i]}
    ensures ValidHits(rest, text) && ValidHits([ps[i]], text)
    ensures multiset(CandidatesOf(ps, enabled, text))
            == multiset(CandidatesOf(rest, enabled, text)) + multiset(CandidatesOf([ps[i]], enabled, text))
  {
    var x, p, y := ps[..i], ps[i], ps[i + 1..];
    assert ps == x + [p] + y;
    HitsConcat(x + [p], y, text);
    HitsConcat(x, [p], text);
    CandidatesAround(x, p, y, enabled, text);
    rest := x + y;
  }

  lemma {:induction false} CandidatesOfPermutation(a: seq<PatternHits>, b: seq<PatternHits>, enabled: string -> bool,
                                                  text: string)
    requires ValidHits(a, text) && ValidHits(b, text) && multiset(a) == multiset(b)
    ensures multiset(CandidatesOf(a, enabled, text)) == multiset(CandidatesOf(b, enabled, text))
    decreases |a|
  {
    if a == [] {
      assert |multiset(b)| == 0;
    } else {
      assert a[0] in multiset(b);
      var i :| 0 <= i < |b| && b[i] == a[0];
      var restA := SplitAround(a, 0, enabled, text);
      var restB := SplitAround(b, i, enabled, text);
      CandidatesOfPermutation(restA, restB, enabled, text);
    }
  }

  /** Any iteration order of the pattern map gives the same findings and the same text. */
  lemma DetectionIgnoresOrder(text: string, a: seq<PatternHits>, b: seq<PatternHits>, enabled: string -> bool,
                              redact: bool, replacement: string)
    requires ValidHits(a, text) && ValidHits(b, text) && multiset(a) == multiset(b)
    ensures Detected(text, CandidatesOf(a, enabled, text), redact, replacement)
            == Detected(text, CandidatesOf(b, enabled, text), redact, replacement)
  {
    var x, y := CandidatesOf(a, enabled, text), CandidatesOf(b, enabled, text);
    CandidatesOfPermutation(a, b, enabled, text);
    CandidatesAreValid(a, enabled, text);
    SortSorts(x);
    SortSorts(y);
    SameMembers(x, Sort(x));
    SortedUnique(Sort(x), Sort(y), text);
    SameMembers(x, y);
    ReferenceDependsOnMembers(text, x, y, replacement, |text|);
  }
}
