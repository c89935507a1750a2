/** Evidence for teaching suggestions: bounded excerpts of released hotspots, request-local
    aliases, and the validation that ties each kept quote to a final transcript chunk. */
module Recommendations {
  import opened Common
  import opened Transcript
  import Metrics

  const EXCERPT_CHARACTER_LIMIT := 2_000
  const MAX_EXCERPT_INTERVALS := 5

  datatype ExcerptChunk = ExcerptChunk(name: string, chunkId: string, text: string)

  datatype Excerpt = Excerpt(start: int, end: int, chunks: seq<ExcerptChunk>)

  datatype Fact = Fact(text: string, chunkId: string, quote: string)

  datatype Recommendation = Recommendation(start: int, end: int, observation: string, action: string,
                                           topic: Option<string>, medium: Option<string>, evidence: seq<Fact>)

  /** The text functions of the host: whitespace collapsing, evidence normalisation
      and the search for forbidden inferences. */
  datatype Texts = Texts(collapse: string -> string, normalise: string -> string, isForbidden: string -> bool)

  // ------------------------------------------------------------------ aliases

  function Digit(n: nat): char
    requires n < 10
  {
    "0123456789"[n]
  }

  function Decimal(n: nat): (s: string)
    ensures s != []
  {
    if n < 10 then [Digit(n)] else Decimal(n / 10) + [Digit(n % 10)]
  }

  function AliasName(index: nat): string { "source_" + Decimal(index) }

  lemma DigitInjective(a: nat, b: nat)
    requires a < 10 && b < 10 && Digit(a) == Digit(b)
    ensures a == b
  {
  }

  lemma {:induction false} DecimalInjective(a: nat, b: nat)
    requires Decimal(a) == Decimal(b)
    ensures a == b
    decreases a
  {
    var s := Decimal(a);
    DigitInjective(a % 10, b % 10) by {
      assert s[|s| - 1] == Digit(a % 10) && s[|s| - 1] == Digit(b % 10);
    }
    assert a < 10 <==> |s| == 1;
    assert b < 10 <==> |s| == 1;
    if a >= 10 {
      assert s[..|s| - 1] == Decimal(a / 10) && s[..|s| - 1] == Decimal(b / 10);
      DecimalInjective(a / 10, b / 10);
    }
  }

  /** Aliases of different chunks differ. */
  lemma AliasInjective(a: nat, b: nat)
    ensures AliasName(a) == AliasName(b) <==> a == b
  {
    if AliasName(a) == AliasName(b) {
      assert AliasName(a)[7..] == Decimal(a) && AliasName(b)[7..] == Decimal(b);
      DecimalInjective(a, b);
    }
  }

  // ----------------------------------------------------------------- excerpts

  /** The hotspots eligible for suggestions, in report order. */
  function Hotspots(buckets: seq<Metrics.Bucket>): seq<Metrics.Bucket> {
    if buckets == [] then []
    else (if buckets[0].status.Available? && buckets[0].isHotspot then [buckets[0]] else []) + Hotspots(buckets[1..])
  }

  function ReleasedHotspots(buckets: seq<Metrics.Bucket>): seq<Metrics.Bucket> {
    Metrics.First(Hotspots(buckets), MAX_EXCERPT_INTERVALS)
  }

  function Wanted(chunks: seq<Chunk>, ids: seq<string>): seq<Chunk> {
    if chunks == [] then []
    else (if chunks[0].isFinal && chunks[0].id in ids then [chunks[0]] else []) + Wanted(chunks[1..], ids)
  }

  function TotalText(kept: seq<ExcerptChunk>): nat {
    if kept == [] then 0 else TotalText(kept[..|kept| - 1]) + |kept[|kept| - 1].text|
  }

  predicate IsPrefix(s: string, t: string) { |s| <= |t| && s == t[..|s|] }

  /** `kept` is the longest run of selected chunks the budget pays for: every chunk but
      the last is whole, the last is cut at the limit, and the run stops early only at
      a blank chunk or when the limit is used up. */
  ghost predicate IsBudgeted(collapse: string -> string, selected: seq<Chunk>, limit: nat, kept: seq<ExcerptChunk>) {
    && |kept| <= |selected| && TotalText(kept) <= limit
    && (forall i :: 0 <= i < |kept| ==> IsExcerptOf(collapse, selected[i], i, kept[i]))
    && (forall i :: 0 <= i < |kept| ==> |kept[i].text| < |collapse(selected[i].text)| ==>
        i == |kept| - 1 && TotalText(kept) == limit)
    && (|kept| < |selected| ==> collapse(selected[|kept|].text) == "" || TotalText(kept) == limit)
  }

  predicate IsExcerptOf(collapse: string -> string, c: Chunk, index: nat, e: ExcerptChunk) {
    e.name == AliasName(index) && e.chunkId == c.id && e.text != "" && IsPrefix(e.text, collapse(c.text))
  }

  lemma TotalTextAppend(kept: seq<ExcerptChunk>, e: ExcerptChunk)
    ensures TotalText(kept + [e]) == TotalText(kept) + |e.text|
  {
    assert (kept + [e])[..|kept|] == kept;
  }

  method BuildHotspotExcerpt(texts: Texts, bucket: Metrics.Bucket, chunks: seq<Chunk>, limit: nat)
    returns (excerpt: Excerpt)
    ensures excerpt.start == bucket.start && excerpt.end == bucket.end
    ensures IsBudgeted(texts.collapse, SortChunks(Wanted(chunks, bucket.chunkIds)), limit, excerpt.chunks)
  {
    hide AliasName, SortChunks, Wanted, TotalText;
    var selected := SortChunks(Wanted(chunks, bucket.chunkIds));
    var kept: seq<ExcerptChunk>, remaining: nat := [], limit;
    NoText();
    for index := 0 to |selected|
      invariant IsBudgeted(texts.collapse, selected[..index], limit, kept) && |kept| == index
      invariant remaining == limit - TotalText(kept)
    {
      var text := texts.collapse(selected[index].text);
      assert forall i :: 0 <= i < index ==> selected[..index][i] == selected[i];
      if text == "" || remaining <= 0 { return Excerpt(bucket.start, bucket.end, kept); }
      if |text| > remaining { text := text[..remaining]; }
      var e := ExcerptChunk(AliasName(index), selected[index].id, text);
      TotalTextAppend(kept, e);
      assert forall i :: 0 <= i <= index ==> selected[..index + 1][i] == selected[i];
      kept := kept + [e];
      remaining := remaining - |text|;
    }
    assert selected[..|selected|] == selected;
    excerpt := Excerpt(bucket.start, bucket.end, kept);
  }

  lemma NoText()
    ensures TotalText([]) == 0
  {
  }

  /** A blank chunk ends the excerpt: nothing from it on is shown. */
  lemma BlankEndsExcerpt(collapse: string -> string, selected: seq<Chunk>, limit: nat, kept: seq<ExcerptChunk>, k: nat)
    requires IsBudgeted(collapse, selected, limit, kept) && k < |selected| && collapse(selected[k].text) == ""
    ensures |kept| <= k
  {
    hide AliasName, TotalText;
    forall i | 0 <= i < |kept|
      ensures collapse(selected[i].text) != ""
    {
      assert IsExcerptOf(collapse, selected[i], i, kept[i]);
    }
  }

  /** How much text the chunks before `k` hold. */
  function Prior(collapse: string -> string, selected: seq<Chunk>, k: nat): nat
    requires k <= |selected|
  {
    if k == 0 then 0 else Prior(collapse, selected, k - 1) + |collapse(selected[k - 1].text)|
  }

  lemma {:induction false} PriorGrows(collapse: string -> string, selected: seq<Chunk>, j: nat, k: nat)
    requires j <= k <= |selected|
    ensures Prior(collapse, selected, j) <= Prior(collapse, selected, k)
  {
    if j < k { PriorGrows(collapse, selected, j, k - 1); }
  }

  /** What is kept of the first chunks: at most all of their text, and exactly that
      unless the last of them is cut at the limit. */
  lemma {:induction false} KeptOfPrior(collapse: string -> string, selected: seq<Chunk>, limit: nat,
                                       kept: seq<ExcerptChunk>, n: nat)
    requires IsBudgeted(collapse, selected, limit, kept) && n <= |kept|
    ensures TotalText(kept[..n]) <= Prior(collapse, selected, n)
    ensures n < |kept| || TotalText(kept) < limit ==> TotalText(kept[..n]) == Prior(collapse, selected, n)
  {
    hide AliasName, TotalText;
    NoText();
    assert kept[..0] == [];
    if n > 0 {
      KeptOfPrior(collapse, selected, limit, kept, n - 1);
      assert kept[..n] == kept[..n - 1] + [kept[n - 1]];
      TotalTextAppend(kept[..n - 1], kept[n - 1]);
      assert IsExcerptOf(collapse, selected[n - 1], n - 1, kept[n - 1]);
    }
  }

  /** Exactly when an excerpt stops with budget to spare: if and only if some selected
      chunk is blank and the text before it does not use up the limit. */
  lemma StopsEarlyExactly(collapse: string -> string, selected: seq<Chunk>, limit: nat, kept: seq<ExcerptChunk>)
    requires IsBudgeted(collapse, selected, limit, kept)
    ensures |kept| < |selected| && TotalText(kept) < limit <==>
              exists k ::
                0 <= k < |selected| && collapse(selected[k].text) == "" && Prior(collapse, selected, k) < limit
  {
    hide AliasName;
    assert kept[..|kept|] == kept;
    KeptOfPrior(collapse, selected, limit, kept, |kept|);
    if |kept| < |selected| && TotalText(kept) < limit {
      assert collapse(selected[|kept|].text) == "" && Prior(collapse, selected, |kept|) < limit;
    }
    forall k | 0 <= k < |selected| && collapse(selected[k].text) == "" && Prior(collapse, selected, k) < limit
      ensures |kept| < |selected| && TotalText(kept) < limit
    {
      BlankEndsExcerpt(collapse, selected, limit, kept, k);
      PriorGrows(collapse, selected, |kept|, k);
    }
  }

  /** Exactly when a chunk with text is dropped although the budget is not used up: if
      and only if some chunk before it is blank while the limit is not yet reached. */
  lemma DropsTextExactly(collapse: string -> string, selected: seq<Chunk>, limit: nat, kept: seq<ExcerptChunk>, j: nat)
    requires IsBudgeted(collapse, selected, limit, kept) && j < |selected| && collapse(selected[j].text) != ""
    ensures |kept| <= j && TotalText(kept) < limit <==>
              exists k :: 0 <= k < j && collapse(selected[k].text) == "" && Prior(collapse, selected, k) < limit
  {
    hide AliasName;
    assert kept[..|kept|] == kept;
    KeptOfPrior(collapse, selected, limit, kept, |kept|);
    if |kept| <= j && TotalText(kept) < limit {
      assert collapse(selected[|kept|].text) == "" && Prior(collapse, selected, |kept|) < limit;
    }
    forall k | 0 <= k < j && collapse(selected[k].text) == "" && Prior(collapse, selected, k) < limit
      ensures |kept| <= j && TotalText(kept) < limit
    {
      BlankEndsExcerpt(collapse, selected, limit, kept, k);
      PriorGrows(collapse, selected, |kept|, k);
    }
  }

  /** So text is dropped with budget to spare: of a short chunk, a blank one and a
      further chunk with text, only the first is shown. */
  lemma BlankHidesLaterText(collapse: string -> string, first: Chunk, blank: Chunk, later: Chunk, limit: nat,
                            kept: seq<ExcerptChunk>)
    requires IsBudgeted(collapse, [first, blank, later], limit, kept)
    requires 0 < |collapse(first.text)| && |collapse(first.text)| + |collapse(later.text)| <= limit
    requires collapse(blank.text) == "" && collapse(later.text) != ""
    ensures kept == [ExcerptChunk(AliasName(0), first.id, collapse(first.text))]
    ensures TotalText(kept) + |collapse(later.text)| <= limit
  {
    var selected := [first, blank, later];
    BlankEndsExcerpt(collapse, selected, limit, kept, 1);
    NoText();
    assert collapse(selected[|kept|].text) == "" || TotalText(kept) == limit;
    assert IsExcerptOf(collapse, selected[0], 0, kept[0]) && kept[..0] == [];
    assert |kept[0].text| == TotalText(kept);
    assert collapse(first.text)[..|collapse(first.text)|] == collapse(first.text);
  }

  /** The budget determines the excerpt. */
  lemma BudgetedUnique(collapse: string -> string, selected: seq<Chunk>, limit: nat,
                       a: seq<ExcerptChunk>, b: seq<ExcerptChunk>)
    requires IsBudgeted(collapse, selected, limit, a) && IsBudgeted(collapse, selected, limit, b)
    ensures a == b
  {
    var n := Min(|a|, |b|);
    BudgetedAgree(collapse, selected, limit, a, b, n);
    assert a[..n] == b[..n];
    if n < |a| {
      assert b[..n] == b;
      TotalTextPrefix(a, n);
    } else if n < |b| {
      assert a[..n] == a;
      TotalTextPrefix(b, n);
    } else {
      assert a[..n] == a && b[..n] == b;
    }
  }

  lemma {:induction false} TotalTextPrefix(kept: seq<ExcerptChunk>, n: nat)
    requires n < |kept| && forall i :: 0 <= i < |kept| ==> kept[i].text != ""
    ensures TotalText(kept[..n]) < TotalText(kept)
    decreases |kept|
  {
    var short := kept[..|kept| - 1];
    if n < |short| {
      TotalTextPrefix(short, n);
      assert short[..n] == kept[..n];
    } else {
      assert kept[..n] == short;
    }
  }

  lemma {:induction false} BudgetedAgree(collapse: string -> string, selected: seq<Chunk>, limit: nat,
                                         a: seq<ExcerptChunk>, b: seq<ExcerptChunk>, n: nat)
    requires IsBudgeted(collapse, selected, limit, a) && IsBudgeted(collapse, selected, limit, b) && n <= |a|
    requires n <= |b|
    ensures a[..n] == b[..n]
  {
    hide AliasName, IsBudgeted, TotalText;
    if n > 0 {
      BudgetedAgree(collapse, selected, limit, a, b, n - 1);
      assert a[..n] == a[..n - 1] + [a[n - 1]] && b[..n] == b[..n - 1] + [b[n - 1]];
      NoShorter(collapse, selected, limit, a, b, n - 1);
      NoShorter(collapse, selected, limit, b, a, n - 1);
    }
  }

  /** After the same chunks, a cut excerpt cannot be shorter than another one. */
  lemma NoShorter(collapse: string -> string, selected: seq<Chunk>, limit: nat, a: seq<ExcerptChunk>,
                  b: seq<ExcerptChunk>, n: nat)
    requires IsBudgeted(collapse, selected, limit, a) && IsBudgeted(collapse, selected, limit, b)
    requires n < |a| && n < |b| && a[..n] == b[..n]
    ensures |a[n].text| >= |b[n].text| && IsExcerptOf(collapse, selected[n], n, a[n])
  {
    hide AliasName;
    if |a[n].text| < |b[n].text| {
      assert a == a[..n] + [a[n]] && b[..n + 1] == b[..n] + [b[n]];
      TotalTextAppend(a[..n], a[n]);
      TotalTextAppend(b[..n], b[n]);
      BudgetBound(b, n + 1, limit);
    }
  }

  lemma {:induction false} BudgetBound(kept: seq<ExcerptChunk>, n: nat, limit: nat)
    requires n <= |kept| && TotalText(kept) <= limit
    ensures TotalText(kept[..n]) <= limit
    decreases |kept|
  {
    if n == |kept| {
      assert kept[..n] == kept;
    } else {
      BudgetBound(kept[..|kept| - 1], n, limit);
      assert kept[..|kept| - 1][..n] == kept[..n];
    }
  }

  // --------------------------------------------------------------- validation

  /** `dict` over the chunks, keyed by alias: the last chunk of an alias wins. */
  function ByAlias(chunks: seq<ExcerptChunk>, name: string): Option<ExcerptChunk> {
    if chunks == [] then None
    else if chunks[|chunks| - 1].name == name then Some(chunks[|chunks| - 1])
    else ByAlias(chunks[..|chunks| - 1], name)
  }

  function ByInterval(excerpts: seq<Excerpt>, start: int, end: int): Option<Excerpt> {
    if excerpts == [] then None
    else
      var last := excerpts[|excerpts| - 1];
      if last.start == start && last.end == end then Some(last) else ByInterval(excerpts[..|excerpts| - 1], start, end)
  }

  predicate Contains(text: string, part: string) {
    exists i {:trigger text[i..]} :: 0 <= i <= |text| && IsPrefix(part, text[i..])
  }

  predicate IsQuoteGrounded(normalise: string -> string, quote: string, source: string) {
    normalise(quote) != "" && Contains(normalise(source), normalise(quote))
  }

  function ChunksFor(excerpts: seq<Excerpt>, start: int, end: int): seq<ExcerptChunk> {
    match ByInterval(excerpts, start, end) case Some(e) => e.chunks case None => []
  }

  /** The facts whose alias resolves and whose quote occurs, renamed to chunk ids. */
  function GroundedFacts(normalise: string -> string, facts: seq<Fact>, chunks: seq<ExcerptChunk>): seq<Fact> {
    if facts == [] then []
    else
      var source := ByAlias(chunks, facts[0].chunkId);
      (if source.Some? && IsQuoteGrounded(normalise, facts[0].quote, source.value.text)
       then [facts[0].(chunkId := source.value.chunkId)]
       else [])
      + GroundedFacts(normalise, facts[1..], chunks)
  }

  function NonEmpty(s: Option<string>): bool { s.Some? && s.value != "" }

  /** `" ".join(filter(None, parts))`. */
  function Joined(parts: seq<Option<string>>): string {
    if parts == [] then ""
    else if !NonEmpty(parts[0]) then Joined(parts[1..])
    else if Joined(parts[1..]) == "" then parts[0].value
    else parts[0].value + " " + Joined(parts[1..])
  }

  function Wording(item: Recommendation): string {
    Joined([Some(item.observation), Some(item.action), item.topic])
  }

  predicate HasContentClaim(item: Recommendation) {
    NonEmpty(item.topic) || NonEmpty(item.medium) || item.evidence != []
  }

  predicate IsAllowed(buckets: seq<Metrics.Bucket>, start: int, end: int) {
    exists b :: b in buckets && b.status.Available? && b.isHotspot && b.start == start && b.end == end
  }

  /** The form in which one suggestion is kept, if it is. */
  function KeptForm(texts: Texts, item: Recommendation, excerpts: seq<Excerpt>): Option<Recommendation> {
    if texts.isForbidden(Wording(item)) then None
    else
      var grounded := GroundedFacts(texts.normalise, item.evidence, ChunksFor(excerpts, item.start, item.end));
      if HasContentClaim(item) && grounded == [] then None else Some(item.(evidence := grounded))
  }

  function KeptItems(texts: Texts, draft: seq<Recommendation>, excerpts: seq<Excerpt>): seq<Recommendation> {
    if draft == [] then []
    else
      var form := KeptForm(texts, draft[|draft| - 1], excerpts);
      KeptItems(texts, draft[..|draft| - 1], excerpts) + (if form.Some? then [form.value] else [])
  }

  // ----------------------------------------------------- end-to-end grounding

  lemma {:induction false} ByAliasFinds(chunks: seq<ExcerptChunk>, name: string)
    ensures var r := ByAlias(chunks, name);
            && (r.Some? <==> exists i :: 0 <= i < |chunks| && chunks[i].name == name)
            && (r.Some? ==> r.value in chunks && r.value.name == name)
  {
    if chunks != [] {
      var rest := chunks[..|chunks| - 1];
      ByAliasFinds(rest, name);
      if exists i :: 0 <= i < |chunks| && chunks[i].name == name {
        var i :| 0 <= i < |chunks| && chunks[i].name == name;
        assert i < |rest| ==> rest[i].name == name;
      }
    }
  }

  /** In a built excerpt an alias names one chunk: looking it up finds that chunk. */
  lemma AliasResolvesUniquely(collapse: string -> string, selected: seq<Chunk>, limit: nat, kept: seq<ExcerptChunk>,
                              i: nat)
    requires IsBudgeted(collapse, selected, limit, kept) && i < |kept|
    ensures ByAlias(kept, AliasName(i)) == Some(kept[i])
  {
    hide TotalText, AliasName;
    assert IsExcerptOf(collapse, selected[i], i, kept[i]);
    ByAliasFinds(kept, AliasName(i));
    var found := ByAlias(kept, AliasName(i)).value;
    var j :| 0 <= j < |kept| && kept[j] == found;
    assert IsExcerptOf(collapse, selected[j], j, kept[j]);
    AliasInjective(i, j);
  }

  lemma {:induction false} WantedMembers(chunks: seq<Chunk>, ids: seq<string>)
    ensures forall c :: c in Wanted(chunks, ids) <==> c in chunks && c.isFinal && c.id in ids
  {
    if chunks != [] {
      WantedMembers(chunks[1..], ids);
      assert chunks == [chunks[0]] + chunks[1..];
    }
  }

  predicate IsSourceOf(c: Chunk, bucket: Metrics.Bucket) {
    c.isFinal && c.start < bucket.end && bucket.start < c.end
  }

  /** The ids a hotspot carries name final chunks that overlap it. */
  ghost predicate NamesSources(bucket: Metrics.Bucket, chunks: seq<Chunk>) {
    forall id :: id in bucket.chunkIds ==> exists c :: c in chunks && c.id == id && IsSourceOf(c, bucket)
  }

  lemma {:induction false} FinalsMembers(chunks: seq<Chunk>)
    ensures forall c :: c in Metrics.Finals(chunks) ==> c in chunks && c.isFinal
  {
    if chunks != [] {
      FinalsMembers(chunks[1..]);
      assert chunks == [chunks[0]] + chunks[1..];
    }
  }

  lemma {:induction false} ChunkIdsName(chunks: seq<Chunk>, start: int, end: int, id: string)
    requires id in Metrics.ChunkIds(chunks, start, end)
    ensures exists c :: c in chunks && c.id == id && c.start < end && start < c.end
  {
    assert chunks == [chunks[0]] + chunks[1..];
    if id in Metrics.ChunkIds(chunks[1..], start, end) { ChunkIdsName(chunks[1..], start, end, id); }
  }

  lemma ReleasedNamesSources(policy: Metrics.Policy, start: int, end: int, group: nat, observed: nat, affected: nat,
                             chunks: seq<Chunk>)
    ensures NamesSources(Metrics.Released(policy, start, end, group, observed, affected, chunks), chunks)
  {
    hide Metrics.Reaches;
    var b := Metrics.Released(policy, start, end, group, observed, affected, chunks);
    FinalsMembers(chunks);
    forall id | id in b.chunkIds ensures exists c :: c in chunks && c.id == id && IsSourceOf(c, b) {
      ChunkIdsName(Metrics.Finals(chunks), start, end, id);
    }
  }

  lemma {:induction false} BucketsNameSources(policy: Metrics.Policy, d: Metrics.Data, start: int)
    ensures forall b :: b in Metrics.BucketsFrom(policy, d, start) ==> NamesSources(b, d.chunks)
    decreases Metrics.ReportEnd(d.chunks) - start
  {
    hide Metrics.Released, NamesSources, Metrics.ReportEnd, Metrics.Observed, Metrics.Affected;
    if start < Metrics.ReportEnd(d.chunks) {
      BucketsNameSources(policy, d, start + policy.bucketMs);
      var end := Min(Metrics.ReportEnd(d.chunks), start + policy.bucketMs);
      var observed := Metrics.Observed(d, start, end);
      ReleasedNamesSources(policy, start, end, |Metrics.OptedIn(d.participants)|, |observed|,
                           |Metrics.Affected(policy, d.events, observed, start, end)|, d.chunks);
    }
  }

  /** One budgeted excerpt per released hotspot, in report order. */
  ghost predicate AreExcerpts(texts: Texts, buckets: seq<Metrics.Bucket>, chunks: seq<Chunk>, excerpts: seq<Excerpt>) {
    && |excerpts| == |ReleasedHotspots(buckets)|
    && forall i :: 0 <= i < |excerpts| ==> IsExcerptFor(texts, ReleasedHotspots(buckets)[i], chunks, excerpts[i])
  }

  ghost predicate IsExcerptFor(texts: Texts, bucket: Metrics.Bucket, chunks: seq<Chunk>, excerpt: Excerpt) {
    && excerpt.start == bucket.start && excerpt.end == bucket.end
    && IsBudgeted(texts.collapse, SortChunks(Wanted(chunks, bucket.chunkIds)), EXCERPT_CHARACTER_LIMIT, excerpt.chunks)
  }

  method ReadExcerpts(texts: Texts, buckets: seq<Metrics.Bucket>, chunks: seq<Chunk>) returns (excerpts: seq<Excerpt>)
    ensures AreExcerpts(texts, buckets, chunks, excerpts)
  {
    hide IsBudgeted, SortChunks, Wanted, ReleasedHotspots;
    var hotspots := ReleasedHotspots(buckets);
    excerpts := [];
    for i := 0 to |hotspots|
      invariant |excerpts| == i && forall j :: 0 <= j < i ==> IsExcerptFor(texts, hotspots[j], chunks, excerpts[j])
    {
      var excerpt := BuildHotspotExcerpt(texts, hotspots[i], chunks, EXCERPT_CHARACTER_LIMIT);
      excerpts := excerpts + [excerpt];
    }
  }

  lemma {:induction false} HotspotsMembers(buckets: seq<Metrics.Bucket>)
    ensures forall b :: b in Hotspots(buckets) <==> b in buckets && b.status.Available? && b.isHotspot
  {
    if buckets != [] {
      HotspotsMembers(buckets[1..]);
      assert buckets == [buckets[0]] + buckets[1..];
    }
  }

  /** The positions of the released hotspots of a report, in order. */
  ghost predicate AreHotspots(buckets: seq<Metrics.Bucket>, at: seq<nat>) {
    Rise(at) && forall i: nat :: i in at <==> i < |buckets| && buckets[i].status.Available? && buckets[i].isHotspot
  }

  predicate AreBucketsAt(buckets: seq<Metrics.Bucket>, at: seq<nat>, found: seq<Metrics.Bucket>) {
    |found| == |at| && forall k :: 0 <= k < |at| ==> at[k] < |buckets| && found[k] == buckets[at[k]]
  }

  lemma BucketsCons(b: Metrics.Bucket, rest: seq<Metrics.Bucket>, isChosen: bool, at: seq<nat>,
                    found: seq<Metrics.Bucket>)
    requires AreBucketsAt(rest, at, found)
    ensures AreBucketsAt([b] + rest, (if isChosen then [0] else []) + Later(at), (if isChosen then [b] else []) + found)
  {
    var all, later := [b] + rest, Later(at);
    forall k | 0 <= k < |at|
      ensures later[k] < |all| && found[k] == all[later[k]]
    {
      assert all[at[k] + 1] == rest[at[k]];
    }
  }

  /** The hotspots of a report are its available hotspot buckets, in order. */
  lemma {:induction false} HotspotsAt(buckets: seq<Metrics.Bucket>) returns (at: seq<nat>)
    ensures AreHotspots(buckets, at) && AreBucketsAt(buckets, at, Hotspots(buckets))
  {
    if buckets == [] {
      at := [];
    } else {
      var b := buckets[0];
      var isChosen := b.status.Available? && b.isHotspot;
      var tail := HotspotsAt(buckets[1..]);
      at := (if isChosen then [0] else []) + Later(tail);
      RiseCons(tail, isChosen);
      BucketsCons(b, buckets[1..], isChosen, tail, Hotspots(buckets[1..]));
      assert buckets == [b] + buckets[1..];
    }
  }

  /** Excerpts are built for the first five released hotspots. */
  lemma ReleasedExactly(buckets: seq<Metrics.Bucket>)
    ensures exists at ::
        AreHotspots(buckets, at) && AreBucketsAt(buckets, Metrics.First(at, 5), ReleasedHotspots(buckets))
  {
    hide AreHotspots;
    var at := HotspotsAt(buckets);
    assert AreBucketsAt(buckets, Metrics.First(at, 5), ReleasedHotspots(buckets));
  }

  lemma {:induction false} ByIntervalFinds(excerpts: seq<Excerpt>, start: int, end: int)
    ensures var r := ByInterval(excerpts, start, end);
            r.Some? ==> exists i ::
                0 <= i < |excerpts| && excerpts[i] == r.value && r.value.start == start && r.value.end == end
  {
    if excerpts != [] {
      var rest := excerpts[..|excerpts| - 1];
      ByIntervalFinds(rest, start, end);
      if ByInterval(rest, start, end).Some? {
        var i :| 0 <= i < |rest| && rest[i] == ByInterval(rest, start, end).value;
        assert excerpts[i] == rest[i];
      }
      assert excerpts[|excerpts| - 1] in excerpts;
    }
  }

  lemma {:induction false} GroundedFactsCome(normalise: string -> string, facts: seq<Fact>, chunks: seq<ExcerptChunk>,
                                             fact: Fact)
    requires fact in GroundedFacts(normalise, facts, chunks)
    ensures exists source ::
        source in chunks && source.chunkId == fact.chunkId && IsQuoteGrounded(normalise, fact.quote, source.text)
  {
    hide IsQuoteGrounded;
    var source := ByAlias(chunks, facts[0].chunkId);
    ByAliasFinds(chunks, facts[0].chunkId);
    if fact in GroundedFacts(normalise, facts[1..], chunks) {
      GroundedFactsCome(normalise, facts[1..], chunks, fact);
    } else {
      assert source.Some? && fact == facts[0].(chunkId := source.value.chunkId);
    }
  }

  lemma {:induction false} KeptFrom(texts: Texts, draft: seq<Recommendation>, excerpts: seq<Excerpt>,
                                    item: Recommendation)
    requires item in KeptItems(texts, draft, excerpts)
    ensures exists i :: 0 <= i < |draft| && KeptForm(texts, draft[i], excerpts) == Some(item)
  {
    hide KeptForm;
    var last := |draft| - 1;
    if item in KeptItems(texts, draft[..last], excerpts) {
      KeptFrom(texts, draft[..last], excerpts, item);
      var i :| 0 <= i < last && KeptForm(texts, draft[..last][i], excerpts) == Some(item);
      assert KeptForm(texts, draft[i], excerpts) == Some(item);
    } else {
      assert KeptForm(texts, draft[last], excerpts) == Some(item);
    }
  }

  /** The quote of a fact occurs in the text that was supplied for the suggestion's own
      interval: in an excerpt of a final chunk of the transcript that overlaps the
      interval, which the fact names. */
  ghost predicate IsEvidence(texts: Texts, excerpts: seq<Excerpt>, chunks: seq<Chunk>, item: Recommendation,
                             fact: Fact) {
    exists c, shown :: c in chunks && c.isFinal && c.start < item.end && item.start < c.end
                       && shown in ChunksFor(excerpts, item.start, item.end) && Shows(texts, c, shown, fact)
  }

  predicate Shows(texts: Texts, c: Chunk, shown: ExcerptChunk, fact: Fact) {
    && c.id == shown.chunkId == fact.chunkId
    && IsPrefix(shown.text, texts.collapse(c.text)) && |shown.text| <= EXCERPT_CHARACTER_LIMIT
    && IsQuoteGrounded(texts.normalise, fact.quote, shown.text)
  }

  lemma ExcerptChunkSource(texts: Texts, chunks: seq<Chunk>, bucket: Metrics.Bucket, excerpt: Excerpt,
                           source: ExcerptChunk)
    requires UniqueIds(chunks) && NamesSources(bucket, chunks) && IsExcerptFor(texts, bucket, chunks, excerpt)
    requires source in excerpt.chunks
    ensures exists c ::
        c in chunks && c.id == source.chunkId && IsSourceOf(c, bucket) && IsPrefix(source.text, texts.collapse(c.text))
    ensures |source.text| <= EXCERPT_CHARACTER_LIMIT
  {
    hide TotalText, AliasName, UniqueIds;
    var selected := SortChunks(Wanted(chunks, bucket.chunkIds));
    var j :| 0 <= j < |excerpt.chunks| && excerpt.chunks[j] == source;
    assert IsExcerptOf(texts.collapse, selected[j], j, source);
    WantedMembers(chunks, bucket.chunkIds);
    SortChunksSorted(Wanted(chunks, bucket.chunkIds));
    assert selected[j] in multiset(selected);
    var c :| c in chunks && c.id == source.chunkId && IsSourceOf(c, bucket);
    SameId(chunks, c, selected[j]);
    PartOfTotal(excerpt.chunks, j);
  }

  lemma {:induction false} PartOfTotal(kept: seq<ExcerptChunk>, j: nat)
    requires j < |kept|
    ensures |kept[j].text| <= TotalText(kept)
  {
    if j < |kept| - 1 { PartOfTotal(kept[..|kept| - 1], j); }
  }

  /** End to end: whatever the provider drafts, every evidence item that survives
      validation against a report's hotspots quotes the text supplied for its own
      released interval, taken from a final chunk that overlaps it. */
  lemma EndToEndGrounding(texts: Texts, policy: Metrics.Policy, d: Metrics.Data, excerpts: seq<Excerpt>,
                          draft: seq<Recommendation>,
                          item: Recommendation, fact: Fact)
    requires UniqueIds(d.chunks)
    requires AreExcerpts(texts, Metrics.ReportOf(policy, d).buckets, d.chunks, excerpts)
    requires item in KeptItems(texts, draft, excerpts) && fact in item.evidence
    ensures IsEvidence(texts, excerpts, d.chunks, item, fact)
    ensures IsAllowed(Metrics.ReportOf(policy, d).buckets, item.start, item.end)
  {
    hide IsExcerptFor, IsSourceOf, NamesSources, UniqueIds, IsQuoteGrounded, Wording, Metrics.BucketsFrom, IsPrefix;
    var buckets := Metrics.BucketsFrom(policy, d, 0);
    KeptFrom(texts, draft, excerpts, item);
    var i :| 0 <= i < |draft| && KeptForm(texts, draft[i], excerpts) == Some(item);
    var shown := ChunksFor(excerpts, item.start, item.end);
    GroundedFactsCome(texts.normalise, draft[i].evidence, shown, fact);
    var source :| source in shown && source.chunkId == fact.chunkId
        && IsQuoteGrounded(texts.normalise, fact.quote, source.text);
    ByIntervalFinds(excerpts, item.start, item.end);
    var k :| 0 <= k < |excerpts| && excerpts[k].chunks == shown && excerpts[k].start == item.start
        && excerpts[k].end == item.end;
    BucketsNameSources(policy, d, 0);
    HotspotsMembers(buckets);
    var bucket := ReleasedHotspots(buckets)[k];
    assert bucket in Hotspots(buckets);
    EvidenceOf(texts, excerpts, d.chunks, bucket, excerpts[k], source, item, fact);
  }

  lemma EvidenceOf(texts: Texts, excerpts: seq<Excerpt>, chunks: seq<Chunk>, bucket: Metrics.Bucket,
                   excerpt: Excerpt, source: ExcerptChunk, item: Recommendation, fact: Fact)
    requires UniqueIds(chunks) && NamesSources(bucket, chunks) && IsExcerptFor(texts, bucket, chunks, excerpt)
    requires source in excerpt.chunks && excerpt.chunks == ChunksFor(excerpts, item.start, item.end)
    requires excerpt.start == item.start && excerpt.end == item.end
    requires source.chunkId == fact.chunkId && IsQuoteGrounded(texts.normalise, fact.quote, source.text)
    ensures IsEvidence(texts, excerpts, chunks, item, fact) && bucket.start == item.start && bucket.end == item.end
  {
    hide IsBudgeted, UniqueIds, NamesSources, IsQuoteGrounded, IsPrefix;
    ExcerptChunkSource(texts, chunks, bucket, excerpt, source);
    var c :| c in chunks && c.id == source.chunkId && IsSourceOf(c, bucket)
        && IsPrefix(source.text, texts.collapse(c.text));
    assert Shows(texts, c, source, fact);
  }

  /** Without excerpts no suggestion that survives makes a claim about content. */
  lemma NoExcerptsNoClaims(texts: Texts, draft: seq<Recommendation>, item: Recommendation)
    requires item in KeptItems(texts, draft, [])
    ensures !HasContentClaim(item)
  {
    hide Wording;
    KeptFrom(texts, draft, [], item);
    var i :| 0 <= i < |draft| && KeptForm(texts, draft[i], []) == Some(item);
    if draft[i].evidence != [] { NothingGrounded(texts.normalise, draft[i].evidence); }
  }

  lemma {:induction false} NothingGrounded(normalise: string -> string, facts: seq<Fact>)
    ensures GroundedFacts(normalise, facts, []) == []
  {
    if facts != [] { NothingGrounded(normalise, facts[1..]); }
  }

  // ------------------------------------------------- which suggestions are kept

  function Spaced(a: string, b: string): string { if a == "" then b else if b == "" then a else a + " " + b }

  /** What a suggestion says: its observation, its action and its topic, a space between. */
  function Said(item: Recommendation): string {
    Spaced(Spaced(item.observation, item.action), if item.topic.Some? then item.topic.value else "")
  }

  /** It names a topic or a medium, or offers evidence. */
  predicate ClaimsContent(item: Recommendation) {
    || (item.topic.Some? && item.topic.value != "")
    || (item.medium.Some? && item.medium.value != "")
    || item.evidence != []
  }

  predicate IsFor(e: Excerpt, item: Recommendation) { e.start == item.start && e.end == item.end }

  /** What was supplied for the suggestion's interval: the last excerpt of it, or nothing. */
  ghost predicate IsSupplied(excerpts: seq<Excerpt>, item: Recommendation, chunks: seq<ExcerptChunk>) {
    if forall k :: 0 <= k < |excerpts| ==> !IsFor(excerpts[k], item) then chunks == []
    else
      exists i ::
        0 <= i < |excerpts| && IsFor(excerpts[i], item) && chunks == excerpts[i].chunks
            && forall k :: i < k < |excerpts| ==> !IsFor(excerpts[k], item)
  }

  /** The chunk that goes by this alias: the last one that does. */
  ghost predicate GoesBy(chunks: seq<ExcerptChunk>, name: string, source: ExcerptChunk) {
    exists j ::
      0 <= j < |chunks| && chunks[j] == source && source.name == name
          && forall k :: j < k < |chunks| ==> chunks[k].name != name
  }

  ghost predicate Occurs(part: string, text: string) {
    exists before: string, after: string :: text == before + part + after
  }

  /** The fact cites a supplied chunk by its alias and quotes something of its text. */
  ghost predicate IsQuoting(texts: Texts, chunks: seq<ExcerptChunk>, fact: Fact, source: ExcerptChunk) {
    && GoesBy(chunks, fact.chunkId, source)
    && texts.normalise(fact.quote) != "" && Occurs(texts.normalise(fact.quote), texts.normalise(source.text))
  }

  ghost predicate IsGroundedFact(texts: Texts, chunks: seq<ExcerptChunk>, fact: Fact) {
    exists source :: IsQuoting(texts, chunks, fact, source)
  }

  ghost predicate IsRenamed(texts: Texts, chunks: seq<ExcerptChunk>, fact: Fact, renamed: Fact) {
    exists source :: IsQuoting(texts, chunks, fact, source) && renamed == fact.(chunkId := source.chunkId)
  }

  /** These are the facts at these positions, renamed. */
  ghost predicate AreRenamedAt(texts: Texts, chunks: seq<ExcerptChunk>, facts: seq<Fact>, at: seq<nat>,
                               out: seq<Fact>) {
    |out| == |at| && forall k :: 0 <= k < |at| ==> at[k] < |facts| && IsRenamed(texts, chunks, facts[at[k]], out[k])
  }

  /** Exactly the grounded facts, in order, each citing the chunk by its id. */
  ghost predicate AreGrounded(texts: Texts, chunks: seq<ExcerptChunk>, facts: seq<Fact>, out: seq<Fact>) {
    exists at ::
      && Rise(at) && (forall i: nat :: i in at <==> i < |facts| && IsGroundedFact(texts, chunks, facts[i]))
      && AreRenamedAt(texts, chunks, facts, at, out)
  }

  /** A suggestion is kept when it says nothing forbidden and, if it claims anything about
      the content, some of its evidence is grounded in what was supplied for its interval. */
  ghost predicate IsKept(texts: Texts, excerpts: seq<Excerpt>, item: Recommendation) {
    && !texts.isForbidden(Said(item))
    && (ClaimsContent(item) ==>
          exists chunks, fact ::
            IsSupplied(excerpts, item, chunks) && fact in item.evidence && IsGroundedFact(texts, chunks, fact))
  }

  /** Nothing of it is changed, but only its grounded evidence is left. */
  ghost predicate IsKeptAs(texts: Texts, excerpts: seq<Excerpt>, item: Recommendation, kept: Recommendation) {
    && kept == item.(evidence := kept.evidence)
    && exists chunks ::
         IsSupplied(excerpts, item, chunks) && AreGrounded(texts, chunks, item.evidence, kept.evidence)
  }

  /** Exactly the suggestions to be kept, in the order of the draft. */
  ghost predicate AreKept(texts: Texts, excerpts: seq<Excerpt>, draft: seq<Recommendation>, kept: seq<Recommendation>) {
    exists at ::
      && Rise(at) && (forall i: nat :: i in at <==> i < |draft| && IsKept(texts, excerpts, draft[i]))
      && |kept| == |at|
      && forall k :: 0 <= k < |at| ==> at[k] < |draft| && IsKeptAs(texts, excerpts, draft[at[k]], kept[k])
  }

  lemma JoinedCons(part: Option<string>, rest: seq<Option<string>>)
    ensures Joined([part] + rest) == Spaced(if part.Some? then part.value else "", Joined(rest))
  {
    assert ([part] + rest)[1..] == rest;
  }

  lemma WordingIsSaid(item: Recommendation)
    ensures Wording(item) == Said(item)
  {
    hide Joined;
    var observation, action, topic := Some(item.observation), Some(item.action), item.topic;
    NothingJoined();
    JoinedCons(topic, []);
    JoinedCons(action, [topic]);
    JoinedCons(observation, [action, topic]);
    assert [topic] + [] == [topic] && [action] + [topic] == [action, topic];
    assert [observation] + [action, topic] == [observation, action, topic];
    var said := if item.topic.Some? then item.topic.value else "";
    assert item.observation + " " + (item.action + " " + said) == item.observation + " " + item.action + " " + said;
  }

  lemma NothingJoined()
    ensures Joined([]) == ""
  {
  }

  lemma {:induction false} SuppliedExactly(excerpts: seq<Excerpt>, item: Recommendation, chunks: seq<ExcerptChunk>)
    ensures IsSupplied(excerpts, item, chunks) <==> chunks == ChunksFor(excerpts, item.start, item.end)
  {
    if excerpts != [] {
      var n := |excerpts| - 1;
      var before := excerpts[..n];
      SuppliedExactly(before, item, chunks);
      if IsFor(excerpts[n], item) {
        if chunks == excerpts[n].chunks { assert IsSupplied(excerpts, item, chunks); }
      } else {
        assert forall k :: 0 <= k < n ==> before[k] == excerpts[k];
      }
    }
  }

  lemma {:induction false} GoesByExactly(chunks: seq<ExcerptChunk>, name: string, source: ExcerptChunk)
    ensures GoesBy(chunks, name, source) <==> ByAlias(chunks, name) == Some(source)
  {
    if chunks != [] {
      var n := |chunks| - 1;
      var before := chunks[..n];
      GoesByExactly(before, name, source);
      assert forall k :: 0 <= k < n ==> before[k] == chunks[k];
    }
  }

  lemma ContainsOccurs(text: string, part: string)
    ensures Contains(text, part) <==> Occurs(part, text)
  {
    if Contains(text, part) {
      var i :| 0 <= i <= |text| && IsPrefix(part, text[i..]);
      assert text == text[..i] + part + text[i + |part|..];
    }
    if Occurs(part, text) {
      var before, after :| text == before + part + after;
      assert text[|before|..] == part + after;
      assert IsPrefix(part, text[|before|..]);
    }
  }

  lemma QuotingExactly(texts: Texts, chunks: seq<ExcerptChunk>, fact: Fact, source: ExcerptChunk)
    ensures IsQuoting(texts, chunks, fact, source) <==>
        ByAlias(chunks, fact.chunkId) == Some(source) && IsQuoteGrounded(texts.normalise, fact.quote, source.text)
  {
    hide Occurs, Contains;
    GoesByExactly(chunks, fact.chunkId, source);
    ContainsOccurs(texts.normalise(source.text), texts.normalise(fact.quote));
  }

  lemma GroundedExactly(texts: Texts, facts: seq<Fact>, chunks: seq<ExcerptChunk>)
    ensures AreGrounded(texts, chunks, facts, GroundedFacts(texts.normalise, facts, chunks))
    ensures GroundedFacts(texts.normalise, facts, chunks) == [] <==>
        forall fact :: fact in facts ==> !IsGroundedFact(texts, chunks, fact)
  {
    hide IsQuoting, IsQuoteGrounded, ByAlias;
    var at := GroundedAt(texts, facts, chunks);
    var out := GroundedFacts(texts.normalise, facts, chunks);
    if fact :| fact in facts && IsGroundedFact(texts, chunks, fact) {
      var i :| 0 <= i < |facts| && facts[i] == fact;
      assert i in at;
    }
    if out != [] { assert at[0] in at && facts[at[0]] in facts; }
  }

  lemma RenamedCons(texts: Texts, chunks: seq<ExcerptChunk>, fact: Fact, rest: seq<Fact>, at: seq<nat>, out: seq<Fact>,
                    renamed: Option<Fact>)
    requires AreRenamedAt(texts, chunks, rest, at, out)
    requires renamed.Some? ==> IsRenamed(texts, chunks, fact, renamed.value)
    ensures AreRenamedAt(texts, chunks, [fact] + rest, (if renamed.Some? then [0] else []) + Later(at),
                         (if renamed.Some? then [renamed.value] else []) + out)
  {
    hide IsRenamed;
    var all, later := [fact] + rest, Later(at);
    forall k | 0 <= k < |at|
      ensures later[k] < |all| && IsRenamed(texts, chunks, all[later[k]], out[k])
    {
      assert all[at[k] + 1] == rest[at[k]];
    }
  }

  /** The fact as it is kept, if it is. */
  function Renamed(texts: Texts, chunks: seq<ExcerptChunk>, fact: Fact): Option<Fact> {
    var source := ByAlias(chunks, fact.chunkId);
    if source.Some? && IsQuoteGrounded(texts.normalise, fact.quote, source.value.text)
    then Some(fact.(chunkId := source.value.chunkId))
    else None
  }

  lemma RenamedExactly(texts: Texts, chunks: seq<ExcerptChunk>, fact: Fact)
    ensures var renamed := Renamed(texts, chunks, fact);
            && (renamed.Some? <==> IsGroundedFact(texts, chunks, fact))
            && (renamed.Some? ==> IsRenamed(texts, chunks, fact, renamed.value))
  {
    hide IsQuoting, IsQuoteGrounded, ByAlias;
    forall source
      ensures IsQuoting(texts, chunks, fact, source) <==>
          ByAlias(chunks, fact.chunkId) == Some(source) && IsQuoteGrounded(texts.normalise, fact.quote, source.text)
    {
      QuotingExactly(texts, chunks, fact, source);
    }
  }

  lemma {:induction false} GroundedAt(texts: Texts, facts: seq<Fact>, chunks: seq<ExcerptChunk>) returns (at: seq<nat>)
    ensures Rise(at) && forall i: nat :: i in at <==> i < |facts| && IsGroundedFact(texts, chunks, facts[i])
    ensures AreRenamedAt(texts, chunks, facts, at, GroundedFacts(texts.normalise, facts, chunks))
  {
    hide IsGroundedFact, IsRenamed, IsQuoteGrounded, ByAlias;
    if facts == [] {
      at := [];
    } else {
      var tail := GroundedAt(texts, facts[1..], chunks);
      var renamed := Renamed(texts, chunks, facts[0]);
      RenamedExactly(texts, chunks, facts[0]);
      at := (if renamed.Some? then [0] else []) + Later(tail);
      RiseCons(tail, renamed.Some?);
      var out := GroundedFacts(texts.normalise, facts[1..], chunks);
      RenamedCons(texts, chunks, facts[0], facts[1..], tail, out, renamed);
      assert facts == [facts[0]] + facts[1..];
    }
  }

  lemma KeptFormExactly(texts: Texts, item: Recommendation, excerpts: seq<Excerpt>)
    ensures var form := KeptForm(texts, item, excerpts);
            && (form.Some? <==> IsKept(texts, excerpts, item))
            && (form.Some? ==> IsKeptAs(texts, excerpts, item, form.value))
  {
    hide IsSupplied, IsGroundedFact, AreGrounded, GroundedFacts, ChunksFor, Wording, Said;
    var chunks := ChunksFor(excerpts, item.start, item.end);
    WordingIsSaid(item);
    forall c ensures IsSupplied(excerpts, item, c) <==> c == chunks { SuppliedExactly(excerpts, item, c); }
    GroundedExactly(texts, item.evidence, chunks);
  }

  /** Which suggestions of a draft are kept, and as what. */
  lemma {:induction false} KeptAt(texts: Texts, draft: seq<Recommendation>, excerpts: seq<Excerpt>)
    returns (at: seq<nat>)
    ensures Rise(at) && forall i: nat :: i in at <==> i < |draft| && IsKept(texts, excerpts, draft[i])
    ensures var kept := KeptItems(texts, draft, excerpts);
            |kept| == |at|
            && forall k :: 0 <= k < |at| ==> at[k] < |draft| && IsKeptAs(texts, excerpts, draft[at[k]], kept[k])
  {
    hide KeptForm, IsKept, IsKeptAs;
    if draft == [] {
      at := [];
    } else {
      var n := |draft| - 1;
      var before := KeptAt(texts, draft[..n], excerpts);
      KeptFormExactly(texts, draft[n], excerpts);
      at := before + if IsKept(texts, excerpts, draft[n]) then [n] else [];
      forall k | 0 <= k < |before| ensures before[k] < n { assert before[k] in before; }
    }
  }

  /** A draft is reduced to exactly the suggestions that say nothing forbidden and whose
      claims are grounded, in order and with their grounded evidence only. */
  lemma KeptExactly(texts: Texts, draft: seq<Recommendation>, excerpts: seq<Excerpt>)
    ensures AreKept(texts, excerpts, draft, KeptItems(texts, draft, excerpts))
  {
    hide IsKept, IsKeptAs, KeptItems;
    var at := KeptAt(texts, draft, excerpts);
  }

  lemma KeptSaysNothingForbidden(texts: Texts, excerpts: seq<Excerpt>, item: Recommendation, kept: Recommendation)
    requires IsKept(texts, excerpts, item) && IsKeptAs(texts, excerpts, item, kept)
    ensures !texts.isForbidden(Said(kept))
  {
    hide AreGrounded, IsSupplied, IsGroundedFact;
  }

  /** No suggestion that is kept says anything forbidden. */
  lemma NothingForbidden(texts: Texts, excerpts: seq<Excerpt>, draft: seq<Recommendation>, kept: seq<Recommendation>)
    requires AreKept(texts, excerpts, draft, kept)
    ensures forall item :: item in kept ==> !texts.isForbidden(Said(item))
  {
    hide IsKept, IsKeptAs, Said;
    var at :| Rise(at) && (forall i: nat :: i in at <==> i < |draft| && IsKept(texts, excerpts, draft[i]))
        && |kept| == |at|
        && forall k :: 0 <= k < |at| ==> at[k] < |draft| && IsKeptAs(texts, excerpts, draft[at[k]], kept[k]);
    forall k | 0 <= k < |kept| ensures !texts.isForbidden(Said(kept[k])) {
      assert at[k] in at;
      KeptSaysNothingForbidden(texts, excerpts, draft[at[k]], kept[k]);
    }
  }

  datatype DraftError = MalformedOutput

  /** A suggestion for an interval that was not released rejects the whole draft;
      otherwise each suggestion is dropped or kept on its own. */
  method ValidateDraft(texts: Texts, draft: seq<Recommendation>, buckets: seq<Metrics.Bucket>, excerpts: seq<Excerpt>)
    returns (r: Result<seq<Recommendation>, DraftError>)
    ensures r.Err? <==> exists i :: 0 <= i < |draft| && !IsAllowed(buckets, draft[i].start, draft[i].end)
    ensures r.Ok? ==> r.value == KeptItems(texts, draft, excerpts) && AreKept(texts, excerpts, draft, r.value)
  {
    hide GroundedFacts, ByInterval, Wording, IsAllowed, AreKept;
    var kept := [];
    for n := 0 to |draft|
      invariant kept == KeptItems(texts, draft[..n], excerpts)
      invariant forall i :: 0 <= i < n ==> IsAllowed(buckets, draft[i].start, draft[i].end)
    {
      assert draft[..n + 1][..n] == draft[..n];
      var item := draft[n];
      if !IsAllowed(buckets, item.start, item.end) { return Err(MalformedOutput); }
      if texts.isForbidden(Wording(item)) { continue; }
      var grounded := GroundedFacts(texts.normalise, item.evidence, ChunksFor(excerpts, item.start, item.end));
      if HasContentClaim(item) && grounded == [] { continue; }
      if !HasContentClaim(item) {
        NoFacts(texts.normalise, ChunksFor(excerpts, item.start, item.end));
        kept := kept + [item];
        continue;
      }
      kept := kept + [item.(evidence := grounded)];
    }
    assert draft[..|draft|] == draft;
    KeptExactly(texts, draft, excerpts);
    r := Ok(kept);
  }

  lemma NoFacts(normalise: string -> string, chunks: seq<ExcerptChunk>)
    ensures GroundedFacts(normalise, [], chunks) == []
  {
  }
}
