/**
 `Metrics.render`: the text of a scrape, read back sample by sample, against plain counts over everything
 observed before the scrape. The dictionaries are listed in some order, of which sorting is one.
 */
module Scrape {
  import opened Wrappers
  import opened Positional
  import opened Amounts
  import opened Exposition
  import opened Metrics
  import Cache

  /** `items` lists the entries of `m`, each once, in some order. */
  ghost predicate Enumerates<K, V>(items: seq<(K, V)>, m: map<K, V>) {
    && (forall i :: 0 <= i < |items| ==> items[i].0 in m && m[items[i].0] == items[i].1)
    && (forall k :: k in m ==> (k, m[k]) in items)
    && (forall i, j :: 0 <= i < j < |items| ==> items[i].0 != items[j].0)
  }

  /******* Six decimals *******/

  /** The whole number of millionths nearest to |x|, ties to even. */
  function Millionths(x: real): nat {
    var y := (if x < 0.0 then -x else x) * 1000000.0;
    var n := y.Floor;
    if y - n as real < 0.5 || (y - n as real == 0.5 && n % 2 == 0) then n else n + 1
  }

  /** The sign and the digits of `f"{x:.6f}"`. */
  function SixDecimals(x: real): Decimal {
    var m := Millionths(x);
    Decimal(x < 0.0, NatStr(m / 1000000), RJust(NatStr(m % 1000000), 6))
  }

  lemma SixDigits(n: nat)
    requires n < 1000000
    ensures |RJust(NatStr(n), 6)| == 6 && AllDigits(RJust(NatStr(n), 6)) && NatOf(RJust(NatStr(n), 6)) == n
  {
    NatOfNatStr(n);
    NatOfRJust(n, 6);
    TenToSix();
    NatOfBound(NatStr(n));
    if |NatStr(n)| > 6 {
      LeadingDigit(NatStr(n));
      assert false;
    }
  }

  lemma TenToSix()
    ensures Pow(10, 6) == 1000000
  {
    PowAdd(10, 3, 3);
  }

  lemma NearestMillionth(x: real)
    ensures var y := if x < 0.0 then -x else x;
      -0.5 <= Millionths(x) as real - y * 1000000.0 <= 0.5
  {}

  lemma MillionthsDigits(m: nat)
    ensures NatOf(NatStr(m / 1000000) + RJust(NatStr(m % 1000000), 6)) == m
  {
    hide NatOf, NatStr, RJust;
    SixDigits(m % 1000000);
    NatOfNatStr(m / 1000000);
    NatOfAppend(NatStr(m / 1000000), RJust(NatStr(m % 1000000), 6));
    TenToSix();
  }

  /** The printed sum denotes a number within half a millionth of the exact one, with six decimals. */
  lemma SumIsNearest(x: real)
    ensures var d := SixDecimals(x);
      && IsNumeral(d.whole) && |d.frac| == 6 && AllDigits(d.frac)
      && -0.0000005 <= d.Value() - x <= 0.0000005
  {
    hide NatOf, NatStr, RJust, Millionths, Pow;
    var m := Millionths(x);
    NearestMillionth(x);
    SixDigits(m % 1000000);
    MillionthsDigits(m);
    TenToSix();
  }

  /******* The samples of a scrape *******/

  function RequestSample(item: ((string, int), nat)): Sample {
    Sample(REQUESTS, [("route", item.0.0), ("status", IntStr(item.0.1))], NatStr(item.1))
  }

  function UpstreamSample(item: ((string, string), nat)): Sample {
    Sample(UPSTREAM, [("upstream", item.0.0), ("outcome", item.0.1)], NatStr(item.1))
  }

  function BucketSample(route: string, le: string, n: nat): Sample {
    Sample(BUCKET, [("route", route), ("le", le)], NatStr(n))
  }

  function SumSample(route: string, total: real): Sample {
    Sample(SUM, [("route", route)], SixDecimals(total).Show())
  }

  function CountSample(route: string, n: nat): Sample {
    Sample(COUNT, [("route", route)], NatStr(n))
  }

  function CacheSample(item: (string, nat)): Sample {
    Sample(CACHE, [("outcome", item.0)], NatStr(item.1))
  }

  /** A gauge by its name and the text of its value. */
  function GaugeSample(gauge: (string, string)): Sample {
    Sample(PREFIX + gauge.0, [], gauge.1)
  }

  /** The outcomes that the cache counts, in the order written. */
  function Outcomes(stats: Cache.Stats): seq<(string, nat)> {
    [("hit", stats.hits), ("miss", stats.misses), ("expired", stats.expirations), ("evicted", stats.evictions)]
  }

  /** The samples of some items, without newlines in their labels. */
  ghost function SamplesOf<T>(items: seq<T>, sample: T -> Sample): (r: seq<Sample>)
    ensures |r| == |items|
  {
    seq(|items|, i requires 0 <= i < |items| => Stripped(sample(items[i])))
  }

  lemma SamplesSnoc<T>(items: seq<T>, sample: T -> Sample, n: nat)
    requires n < |items|
    ensures SamplesOf(items[..n + 1], sample) == SamplesOf(items[..n], sample) + [Stripped(sample(items[n]))]
  {}

  /** The first n buckets of a route: how many of its requests took at most so long. */
  ghost function Buckets(log: seq<Observation>, route: string, n: nat): seq<Sample>
    requires n <= |EDGES|
  {
    seq(n, i requires 0 <= i < n => Stripped(BucketSample(route, EDGE_LABELS[i], Count(log, AtMost(route, EDGES[i])))))
  }

  /** All samples of a route's histogram: +Inf and the count cover all its requests, the sum their durations. */
  ghost function Histogram(log: seq<Observation>, route: string): seq<Sample> {
    Buckets(log, route, |EDGES|)
    + [Stripped(BucketSample(route, "+Inf", Count(log, OfRoute(route))))]
    + [Stripped(SumSample(route, SumOf(log, route)))]
    + [Stripped(CountSample(route, Count(log, OfRoute(route))))]
  }

  ghost function Histograms(log: seq<Observation>, items: seq<(string, seq<nat>)>): seq<Sample> {
    if items == [] then [] else
      Histograms(log, items[..|items| - 1]) + Histogram(log, items[|items| - 1].0)
  }

  ghost function CacheSamples(stats: Option<Cache.Stats>): seq<Sample> {
    if stats.None? then [] else SamplesOf(Outcomes(stats.value), CacheSample)
  }

  /** All samples of a scrape, in order. */
  ghost function Samples(log: seq<Observation>, requestItems: seq<((string, int), nat)>, upstreamItems: seq<((string, string), nat)>,
                         bucketItems: seq<(string, seq<nat>)>, stats: Option<Cache.Stats>, gauges: seq<(string, string)>): seq<Sample>
  {
    SamplesOf(requestItems, RequestSample) + SamplesOf(upstreamItems, UpstreamSample) + Histograms(log, bucketItems)
    + CacheSamples(stats) + SamplesOf(gauges, GaugeSample)
  }

  /******* Lines *******/

  /** Text that needs no escape. */
  predicate Plain(s: string) {
    '\\' !in s && '"' !in s && '\n' !in s
  }

  lemma {:induction false} EscPlain(s: string)
    requires Plain(s)
    ensures EscOnePass(s) == s
  {
    if s != "" {
      EscPlain(s[1..]);
      assert s == [s[0]] + s[1..];
    }
  }

  lemma PlainNumbers(n: int)
    ensures Plain(IntStr(n))
  {
    hide NatStr;
    assert forall c :: c in IntStr(n) ==> c == '-' || IsDigit(c);
  }

  lemma TwoLabels(a: (string, string), b: (string, string))
    ensures ShowLabels([a, b]) == ShowLabel(a) + "," + ShowLabel(b)
  {
    hide ShowLabel;
    assert [a, b][1..] == [b];
    OneLabel(b);
  }

  lemma OneLabel(a: (string, string))
    ensures ShowLabels([a]) == ShowLabel(a)
  {
    hide ShowLabel;
    assert ShowLabel(a) + "" == ShowLabel(a);
  }

  lemma PlainLabel(key: string, text: string)
    requires Plain(text)
    ensures ShowLabel((key, text)) == Pair(key, text)
  {
    EscIsOnePass(text);
    EscPlain(text);
  }

  function RequestLine(item: ((string, int), nat)): string {
    REQUESTS + "{" + (Pair("route", Esc(item.0.0)) + "," + Pair("status", IntStr(item.0.1))) + "} " + NatStr(item.1)
  }

  function UpstreamLine(item: ((string, string), nat)): string {
    UPSTREAM + "{" + (Pair("upstream", Esc(item.0.0)) + "," + Pair("outcome", Esc(item.0.1))) + "} " + NatStr(item.1)
  }

  function BucketLine(route: string, le: string, n: nat): string {
    BUCKET + "{" + (Pair("route", Esc(route)) + "," + Pair("le", le)) + "} " + NatStr(n)
  }

  function SumLine(route: string, total: real): string {
    SUM + "{" + Pair("route", Esc(route)) + "} " + SixDecimals(total).Show()
  }

  function CountLine(route: string, n: nat): string {
    COUNT + "{" + Pair("route", Esc(route)) + "} " + NatStr(n)
  }

  function CacheLine(item: (string, nat)): string {
    CACHE + "{" + Pair("outcome", item.0) + "} " + NatStr(item.1)
  }

  function GaugeLine(gauge: (string, string)): string {
    PREFIX + gauge.0 + " " + gauge.1
  }

  lemma NameAppend(s: string, t: string)
    requires IsName(s) && IsName(t)
    ensures IsName(s + t)
  {}

  lemma CounterPieces()
    ensures IsName(PREFIX) && IsName("requests_total")
  {}

  lemma MoreCounterPieces()
    ensures IsName("upstream_total") && IsName("cache_total")
  {}

  lemma DurationPiece()
    ensures IsName("request_duration_seconds")
  {}

  lemma Suffixes()
    ensures IsName("_bucket") && IsName("_sum") && IsName("_count")
  {}

  lemma Names()
    ensures IsName(REQUESTS) && IsName(UPSTREAM) && IsName(DURATION) && IsName(BUCKET)
    ensures IsName(SUM) && IsName(COUNT) && IsName(CACHE)
  {
    hide IsName;
    CounterPieces();
    MoreCounterPieces();
    DurationPiece();
    Suffixes();
    NameAppend(PREFIX, "request_duration_seconds");
    NameAppend(PREFIX, "requests_total");
    NameAppend(PREFIX, "upstream_total");
    NameAppend(DURATION, "_bucket");
    NameAppend(DURATION, "_sum");
    NameAppend(DURATION, "_count");
    NameAppend(PREFIX, "cache_total");
  }

  lemma NumbersAreValues(n: nat)
    ensures IsValue(NatStr(n))
  {
    hide NatStr;
    assert forall c :: c in NatStr(n) ==> IsDigit(c);
  }

  lemma SumsAreValues(x: real)
    ensures IsValue(SixDecimals(x).Show())
  {
    hide SixDecimals;
    SumIsNearest(x);
    var d := SixDecimals(x);
    assert forall c :: c in d.whole ==> IsDigit(c);
    assert forall c :: c in d.frac ==> IsDigit(c);
  }

  lemma RequestLineShows(item: ((string, int), nat))
    ensures RequestLine(item) == Show(RequestSample(item)) && WellNamed(RequestSample(item))
  {
    hide Esc, IntStr, NatStr, ShowLabels, Pair, IsName, IsValue;
    Names();
    NumbersAreValues(item.1);
    PlainNumbers(item.0.1);
    PlainLabel("status", IntStr(item.0.1));
    TwoLabels(("route", item.0.0), ("status", IntStr(item.0.1)));
  }

  lemma UpstreamLineShows(item: ((string, string), nat))
    ensures UpstreamLine(item) == Show(UpstreamSample(item)) && WellNamed(UpstreamSample(item))
  {
    hide Esc, NatStr, ShowLabels, Pair, IsName, IsValue;
    Names();
    NumbersAreValues(item.1);
    TwoLabels(("upstream", item.0.0), ("outcome", item.0.1));
  }

  lemma BucketLineShows(route: string, le: string, n: nat)
    requires Plain(le)
    ensures BucketLine(route, le, n) == Show(BucketSample(route, le, n)) && WellNamed(BucketSample(route, le, n))
  {
    hide Esc, NatStr, ShowLabels, Pair, IsName, IsValue;
    Names();
    NumbersAreValues(n);
    PlainLabel("le", le);
    TwoLabels(("route", route), ("le", le));
  }

  lemma CountLineShows(route: string, n: nat)
    ensures CountLine(route, n) == Show(CountSample(route, n)) && WellNamed(CountSample(route, n))
  {
    hide Esc, NatStr, ShowLabels, Pair, IsName, IsValue;
    Names();
    NumbersAreValues(n);
    OneLabel(("route", route));
  }

  lemma SumLineShows(route: string, total: real)
    ensures SumLine(route, total) == Show(SumSample(route, total)) && WellNamed(SumSample(route, total))
  {
    hide Esc, SixDecimals, ShowLabels, Pair, IsName, IsValue;
    Names();
    SumsAreValues(total);
    OneLabel(("route", route));
  }

  lemma CacheLineShows(item: (string, nat))
    requires Plain(item.0)
    ensures CacheLine(item) == Show(CacheSample(item)) && WellNamed(CacheSample(item))
  {
    hide Esc, NatStr, ShowLabels, Pair, IsName, IsValue;
    Names();
    NumbersAreValues(item.1);
    PlainLabel("outcome", item.0);
    OneLabel(("outcome", item.0));
  }

  /** Gauges as the service passes them: a metric name, and the text of a number. */
  ghost predicate AreGauges(gauges: seq<(string, string)>) {
    forall i :: 0 <= i < |gauges| ==> IsName(gauges[i].0) && IsValue(gauges[i].1)
  }

  lemma GaugeLineShows(gauge: (string, string))
    requires IsName(gauge.0) && IsValue(gauge.1)
    ensures GaugeLine(gauge) == Show(GaugeSample(gauge)) && WellNamed(GaugeSample(gauge))
    ensures '\n' !in PREFIX + gauge.0
  {
    NameAppend(PREFIX, gauge.0);
  }

  ghost predicate SingleLines(lines: seq<string>) {
    forall i :: 0 <= i < |lines| ==> '\n' !in lines[i]
  }

  lemma AddSample(lines: seq<string>, line: string, s: Sample)
    requires SingleLines(lines) && WellNamed(s) && line == Show(s)
    ensures SingleLines(lines + [line]) && ReadLines(lines + [line]) == ReadLines(lines) + [Stripped(s)]
  {
    hide ReadLines, Show, WellNamed;
    ReadLinesSnoc(lines, s);
    LineHasNoNewline(s);
  }

  lemma AddComment(lines: seq<string>, comment: string)
    requires SingleLines(lines) && comment != "" && comment[0] == '#' && '\n' !in comment
    ensures SingleLines(lines + [comment]) && ReadLines(lines + [comment]) == ReadLines(lines)
  {
    hide ReadLines;
    ReadLinesComment(lines, comment);
  }

  /******* Rendering *******/

  /** The bucket of a duration lies at or before an edge exactly when the edge bounds the duration. */
  lemma SlotAtMost(duration: real, i: nat)
    requires i < |EDGES|
    ensures Slot(duration, 0) <= i <==> duration <= EDGES[i]
  {
    assert forall j, k :: 0 <= j <= k < |EDGES| ==> EDGES[j] <= EDGES[k];
  }

  /** Adding a bucket to the running sum turns the count below it into the count up to its edge. */
  lemma Accumulate(log: seq<Observation>, route: string, i: nat)
    requires i <= |EDGES|
    ensures Count(log, BelowSlot(route, i + 1)) == Count(log, BelowSlot(route, i)) + Count(log, InSlot(route, i))
    ensures i < |EDGES| ==> Count(log, BelowSlot(route, i + 1)) == Count(log, AtMost(route, EDGES[i]))
    ensures i == |EDGES| ==> Count(log, BelowSlot(route, i + 1)) == Count(log, OfRoute(route))
  {
    hide Slot;
    CountSplit(log, BelowSlot(route, i), InSlot(route, i), BelowSlot(route, i + 1));
    if i < |EDGES| {
      forall o: Observation ensures BelowSlot(route, i + 1)(o) == AtMost(route, EDGES[i])(o) {
        SlotAtMost(o.duration, i);
      }
      CountAgree(log, BelowSlot(route, i + 1), AtMost(route, EDGES[i]));
    } else {
      CountAgree(log, BelowSlot(route, i + 1), OfRoute(route));
    }
  }

  lemma NothingBelow(log: seq<Observation>, route: string)
    ensures Count(log, BelowSlot(route, 0)) == 0
  {
    CountAgree(log, BelowSlot(route, 0), (o: Observation) => false);
    NeverCounts(log);
  }

  lemma {:induction false} NeverCounts<T>(log: seq<T>)
    ensures Count(log, (x: T) => false) == 0
  {
    if log != [] {
      NeverCounts(log[..|log| - 1]);
    }
  }

  lemma PlainEdges()
    ensures forall i :: 0 <= i < |EDGES| ==> Plain(EDGE_LABELS[i])
    ensures Plain("+Inf")
  {}

  lemma NoBuckets(log: seq<Observation>, route: string)
    ensures Buckets(log, route, 0) == []
  {}

  lemma BucketsSnoc(log: seq<Observation>, route: string, n: nat)
    requires n < |EDGES|
    ensures Buckets(log, route, n + 1)
         == Buckets(log, route, n) + [Stripped(BucketSample(route, EDGE_LABELS[n], Count(log, AtMost(route, EDGES[n]))))]
  {}

  /** The lines of one route's histogram: `cumulative` runs over the buckets. */
  method RenderRoute(ghost log: seq<Observation>, lines: seq<string>, route: string, counts: seq<nat>, total: real, count: nat)
    returns (r: seq<string>)
    requires SingleLines(lines)
    requires |counts| == |EDGES| + 1 && IsHistogram(counts, log, route)
    requires total == SumOf(log, route) && count == Count(log, OfRoute(route))
    ensures SingleLines(r) && ReadLines(r) == ReadLines(lines) + Histogram(log, route)
    ensures lines <= r
  {
    hide Buckets, BucketSample, SumSample, CountSample, Count, SumOf, IsName, IsValue;
    hide SingleLines, ReadLines, WellNamed, Show, BucketLine, SumLine, CountLine, Slot, Plain, Stripped;
    r := lines;
    var cumulative := 0;
    NothingBelow(log, route);
    PlainEdges();
    NoBuckets(log, route);
    assert ReadLines(lines) + [] == ReadLines(lines);
    for index := 0 to |EDGES|
      invariant lines <= r
      invariant SingleLines(r) && ReadLines(r) == ReadLines(lines) + Buckets(log, route, index)
      invariant cumulative == Count(log, BelowSlot(route, index))
    {
      cumulative := cumulative + counts[index];
      Accumulate(log, route, index);
      var line := BucketLine(route, EDGE_LABELS[index], cumulative);
      BucketLineShows(route, EDGE_LABELS[index], cumulative);
      AddSample(r, line, BucketSample(route, EDGE_LABELS[index], cumulative));
      BucketsSnoc(log, route, index);
      r := r + [line];
    }
    cumulative := cumulative + counts[|EDGES|];
    Accumulate(log, route, |EDGES|);
    BucketLineShows(route, "+Inf", cumulative);
    AddSample(r, BucketLine(route, "+Inf", cumulative), BucketSample(route, "+Inf", cumulative));
    r := r + [BucketLine(route, "+Inf", cumulative)];
    SumLineShows(route, total);
    AddSample(r, SumLine(route, total), SumSample(route, total));
    r := r + [SumLine(route, total)];
    CountLineShows(route, count);
    AddSample(r, CountLine(route, count), CountSample(route, count));
    r := r + [CountLine(route, count)];
  }

  function HelpLine(name: string, text: string): string {
    "# HELP " + name + " " + text
  }

  function TypeLine(name: string, kind: string): string {
    "# TYPE " + name + " " + kind
  }

  method RenderHeader(lines: seq<string>, name: string, help: string, kind: string) returns (r: seq<string>)
    requires SingleLines(lines) && '\n' !in name && '\n' !in help && '\n' !in kind
    ensures SingleLines(r) && ReadLines(r) == ReadLines(lines)
    ensures r == lines + ["# HELP " + name + " " + help, "# TYPE " + name + " " + kind]
  {
    hide ReadLines, SingleLines;
    AddComment(lines, HelpLine(name, help));
    AddComment(lines + [HelpLine(name, help)], TypeLine(name, kind));
    r := lines + [HelpLine(name, help)] + [TypeLine(name, kind)];
  }

  /** The comments that go before a metric's samples are among the lines. */
  ghost predicate Announces(lines: seq<string>, name: string, help: string, kind: string) {
    "# HELP " + name + " " + help in lines && "# TYPE " + name + " " + kind in lines
  }

  lemma HeaderAnnounces(lines: seq<string>, r: seq<string>, name: string, help: string, kind: string)
    requires r == lines + ["# HELP " + name + " " + help, "# TYPE " + name + " " + kind]
    ensures lines <= r && Announces(r, name, help, kind)
  {
    assert r[|lines|] == "# HELP " + name + " " + help && r[|lines| + 1] == "# TYPE " + name + " " + kind;
  }

  /** They stay when lines are added. */
  lemma StillAnnounces(lines: seq<string>, r: seq<string>, name: string, help: string, kind: string)
    requires lines <= r && Announces(lines, name, help, kind)
    ensures Announces(r, name, help, kind)
  {
    assert r == lines + r[|lines|..];
  }

  const REQUESTS_HELP := "HTTP requests by route and status."
  const UPSTREAM_HELP := "Upstream calls by target and outcome."
  const DURATION_HELP := "Request latency by route."
  const CACHE_HELP := "Cache outcomes."

  lemma HelpTexts()
    ensures '\n' !in REQUESTS_HELP && '\n' !in UPSTREAM_HELP && '\n' !in DURATION_HELP && '\n' !in CACHE_HELP
  {
    hide *;
    RequestsText();
    UpstreamText();
    DurationText();
    CacheText();
  }

  lemma RequestsText()
    ensures '\n' !in REQUESTS_HELP
  {}

  lemma UpstreamText()
    ensures '\n' !in UPSTREAM_HELP
  {}

  lemma DurationText()
    ensures '\n' !in DURATION_HELP
  {}

  lemma CacheText()
    ensures '\n' !in CACHE_HELP
  {}

  lemma SingleNames()
    ensures '\n' !in REQUESTS && '\n' !in UPSTREAM && '\n' !in DURATION && '\n' !in CACHE
  {
    Names();
  }

  lemma NoSamples<T>(sample: T -> Sample)
    ensures SamplesOf([], sample) == []
  {}

  method RenderRequests(lines: seq<string>, items: seq<((string, int), nat)>) returns (r: seq<string>)
    requires SingleLines(lines)
    ensures SingleLines(r) && ReadLines(r) == ReadLines(lines) + SamplesOf(items, RequestSample)
    ensures lines <= r
    ensures Announces(r, REQUESTS, "HTTP requests by route and status.", "counter")
  {
    hide Announces, SingleLines, ReadLines, WellNamed, Show, RequestLine, SamplesOf, Stripped, IsName;
    NoSamples(RequestSample);
    Names();
    SingleNames();
    HelpTexts();
    r := RenderHeader(lines, REQUESTS, REQUESTS_HELP, "counter");
    HeaderAnnounces(lines, r, REQUESTS, REQUESTS_HELP, "counter");
    ghost var header := r;
    assert ReadLines(lines) + [] == ReadLines(lines);
    for i := 0 to |items|
      invariant lines <= header <= r
      invariant SingleLines(r) && ReadLines(r) == ReadLines(lines) + SamplesOf(items[..i], RequestSample)
    {
      RequestLineShows(items[i]);
      AddSample(r, RequestLine(items[i]), RequestSample(items[i]));
      SamplesSnoc(items, RequestSample, i);
      r := r + [RequestLine(items[i])];
    }
    assert items[..|items|] == items;
    StillAnnounces(header, r, REQUESTS, REQUESTS_HELP, "counter");
  }

  method RenderUpstream(lines: seq<string>, items: seq<((string, string), nat)>) returns (r: seq<string>)
    requires SingleLines(lines)
    ensures SingleLines(r) && ReadLines(r) == ReadLines(lines) + SamplesOf(items, UpstreamSample)
    ensures lines <= r
    ensures Announces(r, UPSTREAM, "Upstream calls by target and outcome.", "counter")
  {
    hide Announces, SingleLines, ReadLines, WellNamed, Show, UpstreamLine, SamplesOf, Stripped, IsName;
    NoSamples(UpstreamSample);
    Names();
    SingleNames();
    HelpTexts();
    r := RenderHeader(lines, UPSTREAM, UPSTREAM_HELP, "counter");
    HeaderAnnounces(lines, r, UPSTREAM, UPSTREAM_HELP, "counter");
    ghost var header := r;
    assert ReadLines(lines) + [] == ReadLines(lines);
    for i := 0 to |items|
      invariant lines <= header <= r
      invariant SingleLines(r) && ReadLines(r) == ReadLines(lines) + SamplesOf(items[..i], UpstreamSample)
    {
      UpstreamLineShows(items[i]);
      AddSample(r, UpstreamLine(items[i]), UpstreamSample(items[i]));
      SamplesSnoc(items, UpstreamSample, i);
      r := r + [UpstreamLine(items[i])];
    }
    assert items[..|items|] == items;
    StillAnnounces(header, r, UPSTREAM, UPSTREAM_HELP, "counter");
  }

  lemma EntryFacts(c: Counters, items: seq<(string, seq<nat>)>, i: nat)
    requires c.Valid() && Enumerates(items, c.latencyBuckets) && i < |items|
    ensures |items[i].1| == |EDGES| + 1 && IsHistogram(items[i].1, c.log, items[i].0)
    ensures (if items[i].0 in c.latencySum then c.latencySum[items[i].0] else 0.0) == SumOf(c.log, items[i].0)
    ensures At(c.latencyCount, items[i].0) == Count(c.log, OfRoute(items[i].0))
  {}

  method RenderHistograms(c: Counters, lines: seq<string>, items: seq<(string, seq<nat>)>) returns (r: seq<string>)
    requires c.Valid() && Enumerates(items, c.latencyBuckets)
    requires SingleLines(lines)
    ensures SingleLines(r) && ReadLines(r) == ReadLines(lines) + Histograms(c.log, items)
    ensures lines <= r
    ensures Announces(r, DURATION, "Request latency by route.", "histogram")
  {
    hide Announces, SingleLines, ReadLines, Histogram, IsHistogram, Enumerates, Tallies, AreSums, IsName;
    SingleNames();
    HelpTexts();
    r := RenderHeader(lines, DURATION, DURATION_HELP, "histogram");
    HeaderAnnounces(lines, r, DURATION, DURATION_HELP, "histogram");
    ghost var header := r;
    assert ReadLines(lines) + [] == ReadLines(lines);
    for i := 0 to |items|
      invariant lines <= header <= r
      invariant SingleLines(r) && ReadLines(r) == ReadLines(lines) + Histograms(c.log, items[..i])
    {
      var (route, counts) := items[i];
      EntryFacts(c, items, i);
      var total := if route in c.latencySum then c.latencySum[route] else 0.0;
      r := RenderRoute(c.log, r, route, counts, total, At(c.latencyCount, route));
      assert items[..i + 1][..i] == items[..i];
    }
    assert items[..|items|] == items;
    StillAnnounces(header, r, DURATION, DURATION_HELP, "histogram");
  }

  method RenderCache(lines: seq<string>, stats: Option<Cache.Stats>) returns (r: seq<string>)
    requires SingleLines(lines)
    ensures SingleLines(r) && ReadLines(r) == ReadLines(lines) + CacheSamples(stats)
    ensures lines <= r
    ensures stats.Some? ==> Announces(r, CACHE, "Cache outcomes.", "counter")
  {
    hide Announces, SingleLines, ReadLines, WellNamed, Show, CacheLine, SamplesOf, Stripped, Plain;
    r := lines;
    assert ReadLines(lines) + [] == ReadLines(lines);
    if stats.Some? {
      SingleNames();
      HelpTexts();
      NoSamples(CacheSample);
      r := RenderHeader(lines, CACHE, CACHE_HELP, "counter");
      HeaderAnnounces(lines, r, CACHE, CACHE_HELP, "counter");
      ghost var header := r;
      var items := Outcomes(stats.value);
      for i := 0 to |items|
        invariant lines <= header <= r
        invariant SingleLines(r) && ReadLines(r) == ReadLines(lines) + SamplesOf(items[..i], CacheSample)
      {
        PlainOutcome(stats.value, i);
        CacheLineShows(items[i]);
        AddSample(r, CacheLine(items[i]), CacheSample(items[i]));
        SamplesSnoc(items, CacheSample, i);
        r := r + [CacheLine(items[i])];
      }
      assert items[..|items|] == items;
      StillAnnounces(header, r, CACHE, CACHE_HELP, "counter");
    }
  }

  lemma PlainOutcome(stats: Cache.Stats, i: nat)
    requires i < |Outcomes(stats)|
    ensures Plain(Outcomes(stats)[i].0)
  {}

  method RenderGauges(lines: seq<string>, gauges: seq<(string, string)>) returns (r: seq<string>)
    requires SingleLines(lines) && AreGauges(gauges)
    ensures SingleLines(r) && ReadLines(r) == ReadLines(lines) + SamplesOf(gauges, GaugeSample)
    ensures lines <= r
    ensures forall i :: 0 <= i < |gauges| ==> Announces(r, PREFIX + gauges[i].0, "Gauge.", "gauge")
  {
    hide Announces, SingleLines, ReadLines, WellNamed, Show, GaugeLine, SamplesOf, Stripped, IsName, IsValue;
    r := lines;
    NoSamples(GaugeSample);
    assert ReadLines(lines) + [] == ReadLines(lines);
    for i := 0 to |gauges|
      invariant lines <= r
      invariant forall k :: 0 <= k < i ==> Announces(r, PREFIX + gauges[k].0, "Gauge.", "gauge")
      invariant SingleLines(r) && ReadLines(r) == ReadLines(lines) + SamplesOf(gauges[..i], GaugeSample)
    {
      GaugeLineShows(gauges[i]);
      ghost var before := r;
      r := RenderHeader(r, PREFIX + gauges[i].0, "Gauge.", "gauge");
      HeaderAnnounces(before, r, PREFIX + gauges[i].0, "Gauge.", "gauge");
      ghost var header := r;
      AddSample(r, GaugeLine(gauges[i]), GaugeSample(gauges[i]));
      SamplesSnoc(gauges, GaugeSample, i);
      r := r + [GaugeLine(gauges[i])];
      forall k | 0 <= k <= i ensures Announces(r, PREFIX + gauges[k].0, "Gauge.", "gauge") {
        if k < i {
          StillAnnounces(before, r, PREFIX + gauges[k].0, "Gauge.", "gauge");
        } else {
          StillAnnounces(header, r, PREFIX + gauges[k].0, "Gauge.", "gauge");
        }
      }
    }
    assert gauges[..|gauges|] == gauges;
  }

  /******* Whole scrapes *******/

  /** The items are the positive counts of a log's entries, by key. */
  ghost predicate ListsCounts<K(!new), T>(items: seq<(K, nat)>, log: seq<T>, of: K -> (T -> bool)) {
    forall k, n :: (k, n) in items <==> n > 0 && n == Count(log, of(k))
  }

  /** The items' keys are the routes observed. */
  ghost predicate ListsRoutes(items: seq<(string, seq<nat>)>, log: seq<Observation>) {
    forall r :: Listed(items, r) <==> Count(log, OfRoute(r)) > 0
  }

  ghost predicate Listed(items: seq<(string, seq<nat>)>, route: string) {
    exists i :: 0 <= i < |items| && items[i].0 == route
  }

  ghost predicate Lists(log: seq<Observation>, calls: seq<(string, string)>, requestItems: seq<((string, int), nat)>,
                        upstreamItems: seq<((string, string), nat)>, bucketItems: seq<(string, seq<nat>)>)
  {
    && ListsCounts(requestItems, log, OfKey)
    && ListsCounts(upstreamItems, calls, Same<(string, string)>)
    && ListsRoutes(bucketItems, log)
  }

  /** The text reads back as what was observed so far: every counter's entries, every route's histogram, and the rest. */
  ghost predicate IsScrape(text: string, log: seq<Observation>, calls: seq<(string, string)>, stats: Option<Cache.Stats>,
                           gauges: seq<(string, string)>)
  {
    exists requestItems, upstreamItems, bucketItems ::
      && Lists(log, calls, requestItems, upstreamItems, bucketItems)
      && ReadLines(Lines(text)) == Samples(log, requestItems, upstreamItems, bucketItems, stats, gauges)
  }

  lemma CountsListed<K(!new), T>(m: map<K, nat>, log: seq<T>, of: K -> (T -> bool), items: seq<(K, nat)>)
    requires Tallies(m, log, of) && Enumerates(items, m)
    ensures ListsCounts(items, log, of)
  {
    forall k, n ensures (k, n) in items <==> n > 0 && n == Count(log, of(k)) {
      assert At(m, k) == Count(log, of(k));
    }
  }

  lemma RoutesListed(c: Counters, items: seq<(string, seq<nat>)>)
    requires c.Valid() && Enumerates(items, c.latencyBuckets)
    ensures ListsRoutes(items, c.log)
  {
    forall r ensures Listed(items, r) <==> Count(c.log, OfRoute(r)) > 0 {
      assert At(c.latencyCount, r) == Count(c.log, OfRoute(r));
      if r in c.latencyBuckets {
        assert (r, c.latencyBuckets[r]) in items;
      }
    }
  }

  /**
   `Metrics.render`: the text reads back as the counters' entries in the order listed, then for every route
   the number of its requests that took at most so long, straight from the log, the sum of their durations
   and their count, then the cache's statistics and the gauges.
   */
  method Render(c: Counters, requestItems: seq<((string, int), nat)>, upstreamItems: seq<((string, string), nat)>,
                bucketItems: seq<(string, seq<nat>)>, stats: Option<Cache.Stats>, gauges: seq<(string, string)>)
    returns (text: string)
    requires c.Valid()
    requires Enumerates(requestItems, c.requests) && Enumerates(upstreamItems, c.upstream)
    requires Enumerates(bucketItems, c.latencyBuckets)
    requires AreGauges(gauges)
    ensures ReadLines(Lines(text)) == Samples(c.log, requestItems, upstreamItems, bucketItems, stats, gauges)
    ensures IsScrape(text, c.log, c.calls, stats, gauges)
    ensures Announces(Lines(text), "algorandscout_requests_total", "HTTP requests by route and status.", "counter")
    ensures Announces(Lines(text), "algorandscout_upstream_total", "Upstream calls by target and outcome.", "counter")
    ensures Announces(Lines(text), "algorandscout_request_duration_seconds", "Request latency by route.", "histogram")
    ensures stats.Some? ==> Announces(Lines(text), "algorandscout_cache_total", "Cache outcomes.", "counter")
    ensures forall i :: 0 <= i < |gauges| ==> Announces(Lines(text), PREFIX + gauges[i].0, "Gauge.", "gauge")
  {
    hide ReadLines, Enumerates, Tallies, AreHistograms, AreSums, SamplesOf, Histograms, CacheSamples, Text, Lines;
    hide ListsCounts, ListsRoutes, AreGauges, Announces;
    var lines: seq<string> := [];
    NoLines();
    lines := RenderRequests(lines, requestItems);
    ghost var requests := lines;
    lines := RenderUpstream(lines, upstreamItems);
    ghost var upstream := lines;
    lines := RenderHistograms(c, lines, bucketItems);
    ghost var histograms := lines;
    lines := RenderCache(lines, stats);
    ghost var cache := lines;
    lines := RenderGauges(lines, gauges);
    FullNames();
    StillAnnounces(requests, lines, REQUESTS, "HTTP requests by route and status.", "counter");
    StillAnnounces(upstream, lines, UPSTREAM, "Upstream calls by target and outcome.", "counter");
    StillAnnounces(histograms, lines, DURATION, "Request latency by route.", "histogram");
    if stats.Some? {
      StillAnnounces(cache, lines, CACHE, "Cache outcomes.", "counter");
    }
    LinesText(lines);
    text := Text(lines);
    CountsListed(c.requests, c.log, OfKey, requestItems);
    CountsListed(c.upstream, c.calls, Same<(string, string)>, upstreamItems);
    RoutesListed(c, bucketItems);
  }

  lemma NoLines()
    ensures SingleLines([]) && ReadLines([]) == []
  {}

  /******* What a scrape says *******/

  ghost predicate NewlineFree(log: seq<Observation>, calls: seq<(string, string)>) {
    && (forall i :: 0 <= i < |log| ==> '\n' !in log[i].route)
    && (forall i :: 0 <= i < |calls| ==> '\n' !in calls[i].0 && '\n' !in calls[i].1)
  }

  lemma {:induction false} Counted<T>(log: seq<T>, p: T -> bool) returns (x: T)
    requires Count(log, p) > 0
    ensures x in log && p(x)
  {
    if p(log[|log| - 1]) {
      x := log[|log| - 1];
    } else {
      x := Counted(log[..|log| - 1], p);
    }
  }

  lemma StrippedTwo(name: string, a: (string, string), b: (string, string), n: string)
    ensures Stripped(Sample(name, [a, b], n)) == Sample(name, [(a.0, NoNewlines(a.1)), (b.0, NoNewlines(b.1))], n)
  {
    hide NoNewlines;
    assert [a, b][1..] == [b];
    assert StripLabels([b]) == [(b.0, NoNewlines(b.1))] + StripLabels([b][1..]);
  }

  lemma RequestStripped(item: ((string, int), nat))
    requires '\n' !in item.0.0
    ensures Stripped(RequestSample(item)) == RequestSample(item)
  {
    hide NoNewlines, IntStr, NatStr, Stripped;
    StrippedTwo(REQUESTS, ("route", item.0.0), ("status", IntStr(item.0.1)), NatStr(item.1));
    PlainNumbers(item.0.1);
    NoNewlinesShrinks(item.0.0);
    NoNewlinesShrinks(IntStr(item.0.1));
  }

  lemma UpstreamStripped(item: ((string, string), nat))
    requires '\n' !in item.0.0 && '\n' !in item.0.1
    ensures Stripped(UpstreamSample(item)) == UpstreamSample(item)
  {
    hide NoNewlines, NatStr, Stripped;
    StrippedTwo(UPSTREAM, ("upstream", item.0.0), ("outcome", item.0.1), NatStr(item.1));
    NoNewlinesShrinks(item.0.0);
    NoNewlinesShrinks(item.0.1);
  }

  lemma RequestSampleInjective(x: ((string, int), nat), y: ((string, int), nat))
    requires RequestSample(x) == RequestSample(y)
    ensures x == y
  {
    hide IntStr, IntOf, NatStr, NatOf;
    var a, b := RequestSample(x).labels, RequestSample(y).labels;
    assert a[0] == b[0] && a[1] == b[1];
    IntOfIntStr(x.0.1);
    IntOfIntStr(y.0.1);
    NatOfNatStr(x.1);
    NatOfNatStr(y.1);
  }

  lemma UpstreamSampleInjective(x: ((string, string), nat), y: ((string, string), nat))
    requires UpstreamSample(x) == UpstreamSample(y)
    ensures x == y
  {
    hide NatStr, NatOf;
    var a, b := UpstreamSample(x).labels, UpstreamSample(y).labels;
    assert a[0] == b[0] && a[1] == b[1];
    NatOfNatStr(x.1);
    NatOfNatStr(y.1);
  }

  /** The label keys of a sample, which newlines do not affect. */
  function LabelKeys(s: Sample): seq<string> {
    seq(|s.labels|, i requires 0 <= i < |s.labels| => s.labels[i].0)
  }

  lemma {:induction false} StripKeys(labels: seq<(string, string)>)
    ensures forall i :: 0 <= i < |labels| ==> StripLabels(labels)[i].0 == labels[i].0
  {
    if labels != [] {
      StripKeys(labels[1..]);
    }
  }

  lemma StrippedKeys(s: Sample)
    ensures Stripped(s).name == s.name && Stripped(s).value == s.value && LabelKeys(Stripped(s)) == LabelKeys(s)
  {
    StripKeys(s.labels);
  }

  /** Histogram, cache and gauge samples are told from counters by their names or label keys. */
  ghost predicate IsOther(s: Sample) {
    (s.name != REQUESTS && s.name != UPSTREAM) || |s.labels| < 2
  }

  lemma NamesDiffer()
    ensures REQUESTS != UPSTREAM
    ensures REQUESTS != BUCKET && REQUESTS != SUM && REQUESTS != COUNT && REQUESTS != CACHE
    ensures UPSTREAM != BUCKET && UPSTREAM != SUM && UPSTREAM != COUNT && UPSTREAM != CACHE
    ensures SUM != BUCKET && SUM != COUNT && CACHE != BUCKET && CACHE != SUM && CACHE != COUNT && BUCKET != COUNT
  {
    assert REQUESTS[|PREFIX|] == 'r' && UPSTREAM[|PREFIX|] == 'u';
  }

  lemma {:induction false} HistogramsAreOther(log: seq<Observation>, items: seq<(string, seq<nat>)>)
    ensures forall s :: s in Histograms(log, items) ==> IsOther(s)
  {
    if items != [] {
      hide Histogram;
      HistogramsAreOther(log, items[..|items| - 1]);
      HistogramIsOther(log, items[|items| - 1].0);
    }
  }

  lemma HistogramNames(log: seq<Observation>, route: string)
    ensures forall s :: s in Histogram(log, route) ==> s.name in [BUCKET, SUM, COUNT]
  {
    hide BUCKET, SUM, COUNT, NatStr, SixDecimals, StripLabels, Count, SumOf;
    forall s | s in Buckets(log, route, |EDGES|) ensures s.name == BUCKET {
      var i :| 0 <= i < |EDGES| && Buckets(log, route, |EDGES|)[i] == s;
    }
  }

  lemma HistogramIsOther(log: seq<Observation>, route: string)
    ensures forall s :: s in Histogram(log, route) ==> IsOther(s)
  {
    hide Histogram;
    HistogramNames(log, route);
    NamesDiffer();
  }

  /** Cache samples have one label, gauges none. */
  lemma TheRest(stats: Option<Cache.Stats>, gauges: seq<(string, string)>)
    ensures forall s :: s in CacheSamples(stats) ==> s.name == CACHE && |s.labels| == 1
    ensures forall s :: s in SamplesOf(gauges, GaugeSample) ==> s.labels == []
  {
    hide CACHE, PREFIX, NatStr, SamplesOf;
    forall s | s in CacheSamples(stats) ensures s.name == CACHE && |s.labels| == 1 {
      var item := ItemOf(Outcomes(stats.value), CacheSample, s);
    }
    forall s | s in SamplesOf(gauges, GaugeSample) ensures s.labels == [] {
      var gauge := ItemOf(gauges, GaugeSample, s);
    }
  }

  /** Stripped samples are in the list exactly for the items in it, when no label has a newline. */
  lemma SamplesIff<T>(items: seq<T>, sample: T -> Sample, x: T)
    requires forall y :: y in items ==> Stripped(sample(y)) == sample(y) && (sample(x) == sample(y) ==> x == y)
    ensures sample(x) in SamplesOf(items, sample) <==> x in items
  {
    if x in items {
      var i :| 0 <= i < |items| && items[i] == x;
      assert SamplesOf(items, sample)[i] == sample(x);
    }
  }

  lemma RequestSamplesIff(items: seq<((string, int), nat)>, x: ((string, int), nat))
    requires forall y :: y in items ==> '\n' !in y.0.0
    ensures RequestSample(x) in SamplesOf(items, RequestSample) <==> x in items
    ensures forall s :: s in SamplesOf(items, RequestSample) ==> s.name == REQUESTS
  {
    hide Stripped;
    forall y | y in items ensures Stripped(RequestSample(y)) == RequestSample(y) && (RequestSample(x) == RequestSample(y) ==> x == y) {
      RequestStripped(y);
      if RequestSample(x) == RequestSample(y) {
        RequestSampleInjective(x, y);
      }
    }
    SamplesIff(items, RequestSample, x);
    assert forall i :: 0 <= i < |items| ==> items[i] in items;
  }

  lemma UpstreamSamplesIff(items: seq<((string, string), nat)>, x: ((string, string), nat))
    requires forall y :: y in items ==> '\n' !in y.0.0 && '\n' !in y.0.1
    ensures UpstreamSample(x) in SamplesOf(items, UpstreamSample) <==> x in items
    ensures forall s :: s in SamplesOf(items, UpstreamSample) ==> s.name == UPSTREAM
  {
    hide Stripped;
    forall y | y in items ensures Stripped(UpstreamSample(y)) == UpstreamSample(y) && (UpstreamSample(x) == UpstreamSample(y) ==> x == y) {
      UpstreamStripped(y);
      if UpstreamSample(x) == UpstreamSample(y) {
        UpstreamSampleInjective(x, y);
      }
    }
    SamplesIff(items, UpstreamSample, x);
    assert forall i :: 0 <= i < |items| ==> items[i] in items;
  }

  /**
   The counters of a scrape, read from its text, are exactly the positive counts of what was observed: a
   sample for a key and a number is there if and only if the key was observed that many times.
   */
  lemma CountersAreRecovered(text: string, log: seq<Observation>, calls: seq<(string, string)>, stats: Option<Cache.Stats>,
                             gauges: seq<(string, string)>, k: (string, int), u: (string, string), n: nat)
    requires IsScrape(text, log, calls, stats, gauges) && NewlineFree(log, calls)
    ensures Sample("algorandscout_requests_total", [("route", k.0), ("status", IntStr(k.1))], NatStr(n)) in ReadLines(Lines(text))
      <==> n > 0 && n == Count(log, (o: Observation) => o.route == k.0 && o.status == k.1)
    ensures Sample("algorandscout_upstream_total", [("upstream", u.0), ("outcome", u.1)], NatStr(n)) in ReadLines(Lines(text))
      <==> n > 0 && n == Count(calls, (c: (string, string)) => c == u)
  {
    hide ReadLines, Lines, SamplesOf, Histograms, CacheSamples, ListsRoutes, NatStr, IntStr;
    var requestItems, upstreamItems, bucketItems :|
      && Lists(log, calls, requestItems, upstreamItems, bucketItems)
      && ReadLines(Lines(text)) == Samples(log, requestItems, upstreamItems, bucketItems, stats, gauges);
    RequestKeysNewlineFree(log, calls, requestItems);
    UpstreamKeysNewlineFree(log, calls, upstreamItems);
    RequestSamplesIff(requestItems, (k, n));
    UpstreamSamplesIff(upstreamItems, (u, n));
    HistogramsAreOther(log, bucketItems);
    TheRest(stats, gauges);
    NamesDiffer();
    FullNames();
    CountAgree(log, OfKey(k), (o: Observation) => o.route == k.0 && o.status == k.1);
    CountAgree(calls, Same(u), (c: (string, string)) => c == u);
  }

  lemma RequestKeysNewlineFree(log: seq<Observation>, calls: seq<(string, string)>, items: seq<((string, int), nat)>)
    requires NewlineFree(log, calls) && ListsCounts(items, log, OfKey)
    ensures forall y :: y in items ==> '\n' !in y.0.0
  {
    forall y | y in items ensures '\n' !in y.0.0 {
      assert (y.0, y.1) in items;
      var o := Counted(log, OfKey(y.0));
    }
  }

  lemma UpstreamKeysNewlineFree(log: seq<Observation>, calls: seq<(string, string)>, items: seq<((string, string), nat)>)
    requires NewlineFree(log, calls) && ListsCounts(items, calls, Same<(string, string)>)
    ensures forall y :: y in items ==> '\n' !in y.0.0 && '\n' !in y.0.1
  {
    forall y | y in items ensures '\n' !in y.0.0 && '\n' !in y.0.1 {
      assert (y.0, y.1) in items;
      var k := Counted(calls, Same(y.0));
    }
  }

  /** Bucket values never fall along the edges, nor from one scrape to a later one. */
  lemma BucketsAreMonotone(log: seq<Observation>, later: seq<Observation>, route: string, i: nat, j: nat)
    requires log <= later && i <= j < |EDGES|
    ensures Count(log, AtMost(route, EDGES[i])) <= Count(log, AtMost(route, EDGES[j])) <= Count(log, OfRoute(route))
    ensures Count(log, AtMost(route, EDGES[i])) <= Count(later, AtMost(route, EDGES[i]))
    ensures Count(log, OfRoute(route)) <= Count(later, OfRoute(route))
  {
    assert EDGES[i] <= EDGES[j] by {
      assert forall m, k :: 0 <= m <= k < |EDGES| ==> EDGES[m] <= EDGES[k];
    }
    CountMono(log, AtMost(route, EDGES[i]), AtMost(route, EDGES[j]));
    CountMono(log, AtMost(route, EDGES[j]), OfRoute(route));
    CountPrefix(log, later, AtMost(route, EDGES[i]));
    CountPrefix(log, later, OfRoute(route));
  }

  /******* Successive scrapes *******/

  /** The sample's series has in `samples` a value at least as large. */
  ghost predicate Reaches(samples: seq<Sample>, s: Sample) {
    exists t :: t in samples && t.name == s.name && t.labels == s.labels && NatOf(t.value) >= NatOf(s.value)
  }

  /** Two samples of one series, the later one with a number at least as large. */
  lemma ReachesBy(samples: seq<Sample>, name: string, labels: seq<(string, string)>, n: nat, m: nat)
    requires n <= m && Stripped(Sample(name, labels, NatStr(m))) in samples
    ensures Reaches(samples, Stripped(Sample(name, labels, NatStr(n))))
  {
    hide NatStr, NatOf;
    NatOfNatStr(n);
    NatOfNatStr(m);
    assert Stripped(Sample(name, labels, NatStr(m))).labels == Stripped(Sample(name, labels, NatStr(n))).labels;
  }

  lemma InSamples<T>(items: seq<T>, sample: T -> Sample, x: T)
    requires x in items
    ensures Stripped(sample(x)) in SamplesOf(items, sample)
  {
    var i :| 0 <= i < |items| && items[i] == x;
    assert SamplesOf(items, sample)[i] == Stripped(sample(x));
  }

  lemma ItemOf<T>(items: seq<T>, sample: T -> Sample, s: Sample) returns (x: T)
    requires s in SamplesOf(items, sample)
    ensures x in items && s == Stripped(sample(x))
  {
    var i :| 0 <= i < |items| && SamplesOf(items, sample)[i] == s;
    x := items[i];
  }

  /** A counter's samples are reached by those of a longer log. */
  lemma CountersReach<K(!new), T>(log: seq<T>, later: seq<T>, of: K -> (T -> bool), items: seq<(K, nat)>, laterItems: seq<(K, nat)>,
                                  sample: ((K, nat)) -> Sample, name: string, labels: K -> seq<(string, string)>, s: Sample)
    requires log <= later && ListsCounts(items, log, of) && ListsCounts(laterItems, later, of)
    requires forall k, n :: sample((k, n)) == Sample(name, labels(k), NatStr(n))
    requires s in SamplesOf(items, sample)
    ensures Reaches(SamplesOf(laterItems, sample), s)
  {
    hide NatStr, SamplesOf, Stripped, Reaches;
    var item := ItemOf(items, sample, s);
    var (k, n) := item;
    var m := Count(later, of(k));
    CountPrefix(log, later, of(k));
    assert (k, m) in laterItems;
    InSamples(laterItems, sample, (k, m));
    assert sample((k, n)) == Sample(name, labels(k), NatStr(n));
    assert sample((k, m)) == Sample(name, labels(k), NatStr(m));
    ReachesBy(SamplesOf(laterItems, sample), name, labels(k), n, m);
  }

  lemma {:induction false} InHistograms(log: seq<Observation>, items: seq<(string, seq<nat>)>, s: Sample) returns (route: string)
    requires s in Histograms(log, items)
    ensures Listed(items, route) && s in Histogram(log, route)
  {
    hide Histogram;
    var n := |items| - 1;
    if s in Histogram(log, items[n].0) {
      route := items[n].0;
    } else {
      route := InHistograms(log, items[..n], s);
      var i :| 0 <= i < n && items[..n][i].0 == route;
      assert items[i].0 == route;
    }
  }

  lemma {:induction false} HistogramListed(log: seq<Observation>, items: seq<(string, seq<nat>)>, route: string, s: Sample)
    requires Listed(items, route) && s in Histogram(log, route)
    ensures s in Histograms(log, items)
  {
    hide Histogram;
    var n := |items| - 1;
    if items[n].0 != route {
      var i :| 0 <= i < |items| && items[i].0 == route;
      assert items[..n][i].0 == route;
      HistogramListed(log, items[..n], route, s);
    }
  }

  /** A route's histogram, its sum aside, is reached by that of a longer log. */
  lemma HistogramReaches(log: seq<Observation>, later: seq<Observation>, route: string, s: Sample)
    requires log <= later && s in Histogram(log, route) && s.name != SUM
    ensures Reaches(Histogram(later, route), s)
  {
    hide NatStr, NatOf, Stripped, Reaches, Buckets, SixDecimals;
    CountPrefix(log, later, OfRoute(route));
    var n, m := Count(log, OfRoute(route)), Count(later, OfRoute(route));
    if s in Buckets(log, route, |EDGES|) {
      BucketReaches(log, later, route, s);
      ReachesMore(Buckets(later, route, |EDGES|), Histogram(later, route), s);
    } else if s == Stripped(BucketSample(route, "+Inf", n)) {
      ReachesBy(Histogram(later, route), BUCKET, [("route", route), ("le", "+Inf")], n, m);
    } else if s == Stripped(CountSample(route, n)) {
      ReachesBy(Histogram(later, route), COUNT, [("route", route)], n, m);
    } else {
      StrippedKeys(SumSample(route, SumOf(log, route)));
      assert false;
    }
  }

  lemma BucketReaches(log: seq<Observation>, later: seq<Observation>, route: string, s: Sample)
    requires log <= later && s in Buckets(log, route, |EDGES|)
    ensures Reaches(Buckets(later, route, |EDGES|), s)
  {
    hide NatStr, NatOf, Stripped, Reaches;
    var i :| 0 <= i < |EDGES| && Buckets(log, route, |EDGES|)[i] == s;
    CountPrefix(log, later, AtMost(route, EDGES[i]));
    var n, m := Count(log, AtMost(route, EDGES[i])), Count(later, AtMost(route, EDGES[i]));
    assert Buckets(later, route, |EDGES|)[i] == Stripped(BucketSample(route, EDGE_LABELS[i], m));
    ReachesBy(Buckets(later, route, |EDGES|), BUCKET, [("route", route), ("le", EDGE_LABELS[i])], n, m);
  }

  lemma ReachesMore(some: seq<Sample>, all: seq<Sample>, s: Sample)
    requires Reaches(some, s) && forall t :: t in some ==> t in all
    ensures Reaches(all, s)
  {}

  lemma HistogramsReach(log: seq<Observation>, later: seq<Observation>, items: seq<(string, seq<nat>)>,
                        laterItems: seq<(string, seq<nat>)>, s: Sample)
    requires log <= later && ListsRoutes(items, log) && ListsRoutes(laterItems, later)
    requires s in Histograms(log, items) && s.name != SUM
    ensures Reaches(Histograms(later, laterItems), s)
  {
    hide Histogram, Histograms, Listed, Reaches;
    var route := InHistograms(log, items, s);
    CountPrefix(log, later, OfRoute(route));
    HistogramReaches(log, later, route, s);
    forall t | t in Histogram(later, route) ensures t in Histograms(later, laterItems) {
      HistogramListed(later, laterItems, route, t);
    }
    ReachesMore(Histogram(later, route), Histograms(later, laterItems), s);
  }

  /** The series that count what was observed: both counters, the buckets and the counts. */
  ghost predicate CountsObservations(s: Sample) {
    s.name in {REQUESTS, UPSTREAM, BUCKET, COUNT} && s.labels != []
  }

  /**
   Successive scrapes never fall: every counter, bucket and count sample of one text has in each later text
   a sample of the same series with a value at least as large, whatever the labels contain.
   */
  lemma ScrapesNeverFall(text: string, log: seq<Observation>, calls: seq<(string, string)>, stats: Option<Cache.Stats>,
                         gauges: seq<(string, string)>,
                         laterText: string, later: seq<Observation>, laterCalls: seq<(string, string)>,
                         laterStats: Option<Cache.Stats>, laterGauges: seq<(string, string)>, s: Sample)
    requires IsScrape(text, log, calls, stats, gauges) && log <= later && calls <= laterCalls
    requires IsScrape(laterText, later, laterCalls, laterStats, laterGauges)
    requires s in ReadLines(Lines(text)) && CountsObservations(s)
    ensures Reaches(ReadLines(Lines(laterText)), s)
  {
    hide ReadLines, Lines, SamplesOf, Histograms, CacheSamples, ListsRoutes, ListsCounts, Reaches;
    var ri, ui, bi :| Lists(log, calls, ri, ui, bi) && ReadLines(Lines(text)) == Samples(log, ri, ui, bi, stats, gauges);
    var rj, uj, bj :| Lists(later, laterCalls, rj, uj, bj)
      && ReadLines(Lines(laterText)) == Samples(later, rj, uj, bj, laterStats, laterGauges);
    var all := ReadLines(Lines(laterText));
    if s in SamplesOf(ri, RequestSample) {
      RequestsReach(log, later, ri, rj, s);
      ReachesMore(SamplesOf(rj, RequestSample), all, s);
    } else if s in SamplesOf(ui, UpstreamSample) {
      UpstreamReaches(calls, laterCalls, ui, uj, s);
      ReachesMore(SamplesOf(uj, UpstreamSample), all, s);
    } else {
      TheRest(stats, gauges);
      NamesDiffer();
      HistogramsReach(log, later, bi, bj, s);
      ReachesMore(Histograms(later, bj), all, s);
    }
  }

  lemma RequestsReach(log: seq<Observation>, later: seq<Observation>, items: seq<((string, int), nat)>,
                      laterItems: seq<((string, int), nat)>, s: Sample)
    requires log <= later && ListsCounts(items, log, OfKey) && ListsCounts(laterItems, later, OfKey)
    requires s in SamplesOf(items, RequestSample)
    ensures Reaches(SamplesOf(laterItems, RequestSample), s)
  {
    hide SamplesOf, ListsCounts, Reaches, NatStr, IntStr;
    CountersReach(log, later, OfKey, items, laterItems, RequestSample, REQUESTS,
                  (k: (string, int)) => [("route", k.0), ("status", IntStr(k.1))], s);
  }

  lemma UpstreamReaches(calls: seq<(string, string)>, later: seq<(string, string)>, items: seq<((string, string), nat)>,
                        laterItems: seq<((string, string), nat)>, s: Sample)
    requires calls <= later
    requires ListsCounts(items, calls, Same<(string, string)>) && ListsCounts(laterItems, later, Same<(string, string)>)
    requires s in SamplesOf(items, UpstreamSample)
    ensures Reaches(SamplesOf(laterItems, UpstreamSample), s)
  {
    hide SamplesOf, ListsCounts, Reaches, NatStr;
    CountersReach(calls, later, Same<(string, string)>, items, laterItems, UpstreamSample, UPSTREAM,
                  (k: (string, string)) => [("upstream", k.0), ("outcome", k.1)], s);
  }

  /******* The total count of a route *******/

  /** The counts of one route over its statuses. */
  function SumOfRoute(items: seq<((string, int), nat)>, route: string): nat {
    if items == [] then 0 else
      var (k, n) := items[|items| - 1];
      SumOfRoute(items[..|items| - 1], route) + (if k.0 == route then n else 0)
  }

  /** The observations whose key is among the items. */
  function KeyIn(items: seq<((string, int), nat)>, route: string): Observation -> bool {
    (o: Observation) => o.route == route && exists i :: 0 <= i < |items| && items[i].0 == (o.route, o.status)
  }

  lemma {:induction false} SumCounts(log: seq<Observation>, items: seq<((string, int), nat)>, route: string)
    requires forall i :: 0 <= i < |items| ==> items[i].1 == Count(log, OfKey(items[i].0))
    requires forall i, j :: 0 <= i < j < |items| ==> items[i].0 != items[j].0
    ensures SumOfRoute(items, route) == Count(log, KeyIn(items, route))
  {
    if items == [] {
      CountAgree(log, KeyIn(items, route), (o: Observation) => false);
      NeverCounts(log);
    } else {
      var n := |items| - 1;
      var k := items[n].0;
      SumCounts(log, items[..n], route);
      if k.0 == route {
        forall o: Observation
          ensures KeyIn(items, route)(o) <==> KeyIn(items[..n], route)(o) || OfKey(k)(o)
          ensures !(KeyIn(items[..n], route)(o) && OfKey(k)(o))
        {
          KeyInSnoc(items, route, o);
        }
        CountSplit(log, KeyIn(items[..n], route), OfKey(k), KeyIn(items, route));
      } else {
        forall o: Observation ensures KeyIn(items, route)(o) == KeyIn(items[..n], route)(o) {
          KeyInSnoc(items, route, o);
        }
        CountAgree(log, KeyIn(items, route), KeyIn(items[..n], route));
      }
    }
  }

  lemma KeyInSnoc(items: seq<((string, int), nat)>, route: string, o: Observation)
    requires items != []
    requires forall i, j :: 0 <= i < j < |items| ==> items[i].0 != items[j].0
    ensures var n := |items| - 1;
      && (KeyIn(items, route)(o) <==> KeyIn(items[..n], route)(o) || (o.route == route && items[n].0 == (o.route, o.status)))
      && !(KeyIn(items[..n], route)(o) && items[n].0 == (o.route, o.status))
  {
    var n := |items| - 1;
    assert forall i :: 0 <= i < n ==> items[..n][i] == items[i];
  }

  /** The `+Inf` bucket and the count of a route equal its `requests` counters added up over all statuses. */
  lemma RequestsAddUpToCount(c: Counters, items: seq<((string, int), nat)>, route: string)
    requires c.Valid() && Enumerates(items, c.requests)
    ensures SumOfRoute(items, route) == Count(c.log, OfRoute(route)) == At(c.latencyCount, route)
  {
    hide SumOfRoute;
    forall i | 0 <= i < |items| ensures items[i].1 == Count(c.log, OfKey(items[i].0)) {
      assert At(c.requests, items[i].0) == items[i].1;
    }
    SumCounts(c.log, items, route);
    forall o | o in c.log ensures KeyIn(items, route)(o) == OfRoute(route)(o) {
      ObservedIsListed(c, items, o);
    }
    CountAgree(c.log, KeyIn(items, route), OfRoute(route));
  }

  lemma ObservedIsListed(c: Counters, items: seq<((string, int), nat)>, o: Observation)
    requires c.Valid() && Enumerates(items, c.requests) && o in c.log
    ensures exists i :: 0 <= i < |items| && items[i].0 == (o.route, o.status)
  {
    var k := (o.route, o.status);
    CountPositive(c.log, OfKey(k), o);
    assert At(c.requests, k) == Count(c.log, OfKey(k));
    assert (k, c.requests[k]) in items;
  }

  lemma {:induction false} CountPositive<T>(log: seq<T>, p: T -> bool, x: T)
    requires x in log && p(x)
    ensures Count(log, p) > 0
  {
    if !p(log[|log| - 1]) {
      assert log == log[..|log| - 1] + [log[|log| - 1]];
      CountPositive(log[..|log| - 1], p, x);
    }
  }
}
