/**
 * The integer statistics of `Analytics.analyze`: field coverage counters, the
 * lower-cased change-frequency histogram, the per-host URL counts with the
 * eight busiest hosts, and the lexicographic range of `lastmod` values.
 */
module Analytics {
  import opened Wrappers
  import opened Text
  import opened Sitemap
  import opened OrderedMap
  import opened Sorting

  /** The integer part of what `analyze` returns. */
  datatype Stats = Stats(
    total: nat,
    domainCount: nat,
    httpsCount: nat,
    lastmodCount: nat,
    changefreqCount: nat,
    priorityCount: nat,
    freqDist: seq<(string, nat)>,
    topDomains: seq<(string, nat)>,
    oldest: string,
    newest: string)

  /** The optional fields whose presence `analyze` counts. */
  datatype Field = Lastmod | Changefreq | Priority

  function FieldOf(e: Entry, f: Field): string {
    match f
    case Lastmod => e.lastmod
    case Changefreq => e.changefreq
    case Priority => e.priority
  }

  /** Shown for an empty date range. */
  const Dash := "\U{2014}"

  /** How many top hosts are reported. */
  const TopCount := 8

  // ---------------------------------------------------------------------------
  // What the `forEach` accumulates, entry by entry

  /** `(m.get(k) || 0) + 1` stored back under `k`. */
  function Increment(m: seq<(string, nat)>, k: string): seq<(string, nat)> {
    Set(m, k, (match Get(m, k) case Some(n) => n case None => 0) + 1)
  }

  /** The number of entries whose field `f` is non-empty. */
  function Filled(es: seq<Entry>, f: Field): (r: nat)
    ensures r <= |es|
  {
    if es == [] then 0
    else Filled(es[..|es| - 1], f) + (if FieldOf(es[|es| - 1], f) != [] then 1 else 0)
  }

  /** The number of entries whose `loc` is a URL. */
  function Parsed(es: seq<Entry>, parse: UrlParser): (r: nat)
    ensures r <= |es|
  {
    if es == [] then 0
    else Parsed(es[..|es| - 1], parse) + (if parse(es[|es| - 1].loc).Some? then 1 else 0)
  }

  /** The number of entries whose `loc` parses to a URL with hostname `h`. */
  function HostCount(es: seq<Entry>, parse: UrlParser, h: string): (r: nat)
    ensures r <= Parsed(es, parse)
  {
    if es == [] then 0
    else
      var p := parse(es[|es| - 1].loc);
      HostCount(es[..|es| - 1], parse, h) + (if p.Some? && p.value.hostname == h then 1 else 0)
  }

  /** The number of entries whose `loc` parses to an `https:` URL. */
  function HttpsCount(es: seq<Entry>, parse: UrlParser): (r: nat)
    ensures r <= Parsed(es, parse)
  {
    if es == [] then 0
    else
      var p := parse(es[|es| - 1].loc);
      HttpsCount(es[..|es| - 1], parse) + (if p.Some? && p.value.protocol == "https:" then 1 else 0)
  }

  /** The number of entries with a non-empty `changefreq` that lower-cases to `f`. */
  function FreqCount(es: seq<Entry>, f: string): (r: nat)
    ensures r <= Filled(es, Changefreq)
  {
    if es == [] then 0
    else
      var c := es[|es| - 1].changefreq;
      FreqCount(es[..|es| - 1], f) + (if c != [] && ToLower(c) == f then 1 else 0)
  }

  /** A count as a `Map`/object lookup gives it: no key for zero. */
  function Counted(n: nat): (r: Option<nat>)
    ensures r.None? <==> n == 0
    ensures r.Some? ==> r.value == n
  {
    if n == 0 then None else Some(n)
  }

  /** The variables the `forEach` callback updates. */
  datatype Tally = Tally(
    domains: seq<(string, nat)>,
    httpsCount: nat,
    hasLastmod: nat,
    hasChangefreq: nat,
    hasPriority: nat,
    freqDist: seq<(string, nat)>,
    dates: seq<string>)

  const Start := Tally([], 0, 0, 0, 0, [], [])

  /** The `forEach` callback on one entry. */
  function Count(t: Tally, e: Entry, parse: UrlParser): Tally {
    var p := parse(e.loc);
    Tally(
      if p.Some? then Increment(t.domains, p.value.hostname) else t.domains,
      if p.Some? && p.value.protocol == "https:" then t.httpsCount + 1 else t.httpsCount,
      if e.lastmod != [] then t.hasLastmod + 1 else t.hasLastmod,
      if e.changefreq != [] then t.hasChangefreq + 1 else t.hasChangefreq,
      if e.priority != [] then t.hasPriority + 1 else t.hasPriority,
      if e.changefreq != [] then Increment(t.freqDist, ToLower(e.changefreq)) else t.freqDist,
      if e.lastmod != [] then t.dates + [e.lastmod] else t.dates)
  }

  /** The variables after the callback has run on every entry, in order. */
  function TallyOf(es: seq<Entry>, parse: UrlParser): Tally {
    if es == [] then Start else Count(TallyOf(es[..|es| - 1], parse), es[|es| - 1], parse)
  }

  lemma TallyOfPrefix(es: seq<Entry>, i: nat, parse: UrlParser)
    requires i < |es|
    ensures TallyOf(es[..i + 1], parse) == Count(TallyOf(es[..i], parse), es[i], parse)
  {
    assert es[..i + 1][..i] == es[..i];
  }

  // ---------------------------------------------------------------------------
  // After the loop

  /** The count of a `[host, count]` pair, the sort key. */
  function CountOf(p: (string, nat)): int {
    p.1
  }

  /** The first `TopCount` pairs after sorting by count, highest first. */
  function Top(domains: seq<(string, nat)>): seq<(string, nat)> {
    var sorted := SortDesc(domains, CountOf);
    if |sorted| <= TopCount then sorted else sorted[..TopCount]
  }

  /** The first element of the sorted dates: the least under string `<`. */
  function Earliest(ds: seq<string>): (r: string)
    requires ds != []
  {
    if |ds| == 1 then ds[0]
    else
      var m := Earliest(ds[..|ds| - 1]);
      if Less(ds[|ds| - 1], m) then ds[|ds| - 1] else m
  }

  /** The last element of the sorted dates: the greatest under string `<`. */
  function Latest(ds: seq<string>): (r: string)
    requires ds != []
  {
    if |ds| == 1 then ds[0]
    else
      var m := Latest(ds[..|ds| - 1]);
      if Less(m, ds[|ds| - 1]) then ds[|ds| - 1] else m
  }

  /** The statistics of a non-empty list of entries. */
  function StatsOf(es: seq<Entry>, parse: UrlParser): Stats {
    var t := TallyOf(es, parse);
    Stats(|es|, |t.domains|, t.httpsCount, t.hasLastmod, t.hasChangefreq, t.hasPriority,
          t.freqDist, Top(t.domains),
          if t.dates == [] then Dash else Earliest(t.dates),
          if t.dates == [] then Dash else Latest(t.dates))
  }

  // ---------------------------------------------------------------------------
  // The method

  /** The `forEach` callback's updates, on the variables it writes. */
  method CountEntry(t: Tally, e: Entry, parse: UrlParser) returns (u: Tally)
    ensures u == Count(t, e, parse)
  {
    var domains, httpsCount := t.domains, t.httpsCount;
    var hasLastmod, hasChangefreq, hasPriority := t.hasLastmod, t.hasChangefreq, t.hasPriority;
    var freqDist, dates := t.freqDist, t.dates;
    match parse(e.loc) {
      case Some(url) =>
        domains := Increment(domains, url.hostname);
        if url.protocol == "https:" {
          httpsCount := httpsCount + 1;
        }
      case None =>
    }
    if e.lastmod != [] {
      hasLastmod := hasLastmod + 1;
      dates := dates + [e.lastmod];
    }
    if e.changefreq != [] {
      hasChangefreq := hasChangefreq + 1;
      freqDist := Increment(freqDist, ToLower(e.changefreq));
    }
    if e.priority != [] {
      hasPriority := hasPriority + 1;
    }
    ghost var after := Count(t, e, parse);
    assert domains == after.domains;
    assert httpsCount == after.httpsCount;
    assert hasLastmod == after.hasLastmod;
    assert hasChangefreq == after.hasChangefreq;
    assert hasPriority == after.hasPriority;
    assert freqDist == after.freqDist;
    assert dates == after.dates;
    u := Tally(domains, httpsCount, hasLastmod, hasChangefreq, hasPriority, freqDist, dates);
  }

  /** `analyze`: `None` (the source's `null`) for no entries, else one pass over them. */
  method Analyze(entries: seq<Entry>, parse: UrlParser) returns (r: Option<Stats>)
    ensures r.None? <==> entries == []
    ensures r.Some? ==> r.value == StatsOf(entries, parse)
  {
    if |entries| == 0 {
      return None;
    }
    var tally := Start;
    var i := 0;
    while i < |entries|
      invariant 0 <= i <= |entries|
      invariant tally == TallyOf(entries[..i], parse)
    {
      tally := CountEntry(tally, entries[i], parse);
      TallyOfPrefix(entries, i, parse);
      i := i + 1;
    }
    assert entries[..i] == entries;
    var domains, dates := tally.domains, tally.dates;
    var topDomains := Top(domains);
    var oldest := if dates == [] then Dash else Earliest(dates);
    var newest := if dates == [] then Dash else Latest(dates);
    r := Some(Stats(|entries|, |domains|, tally.httpsCount, tally.hasLastmod, tally.hasChangefreq, tally.hasPriority,
                    tally.freqDist, topDomains, oldest, newest));
  }

  // ---------------------------------------------------------------------------
  // Properties of the accumulated values

  /** The sum of the counts of a `[key, count]` list. */
  function Sum(m: seq<(string, nat)>): nat {
    if m == [] then 0 else Sum(m[..|m| - 1]) + m[|m| - 1].1
  }

  /** Replacing one count changes the sum by the difference. */
  lemma {:induction false} SumUpdate(m: seq<(string, nat)>, i: nat, p: (string, nat))
    requires i < |m|
    ensures Sum(m[i := p]) + m[i].1 == Sum(m) + p.1
    decreases |m|
  {
    var n := |m| - 1;
    var r := m[i := p];
    assert r[..n] == if i == n then m[..n] else m[..n][i := p];
    if i < n {
      SumUpdate(m[..n], i, p);
    }
  }

  /** Each `Increment` adds exactly one to the total count. */
  lemma SumIncrement(m: seq<(string, nat)>, k: string)
    ensures Sum(Increment(m, k)) == Sum(m) + 1
  {
    var r := Increment(m, k);
    if k in Keys(m) {
      var i := IndexOf(m, k);
      assert Get(m, k) == Some(m[i].1);
      assert r == m[i := (k, m[i].1 + 1)];
      SumUpdate(m, i, (k, m[i].1 + 1));
    } else {
      assert r[..|m|] == m;
    }
  }

  /** The value `Increment` stores under `k`. */
  function Bumped(m: seq<(string, nat)>, k: string): nat {
    (match Get(m, k) case Some(n) => n case None => 0) + 1
  }

  /** `Increment` keeps the keys distinct and adds `k` to them. */
  lemma IncrementKeySet(m: seq<(string, nat)>, k: string)
    requires Distinct(Keys(m))
    ensures Distinct(Keys(Increment(m, k)))
    ensures KeySet(Increment(m, k)) == KeySet(m) + {k}
  {
    assert Increment(m, k) == Set(m, k, Bumped(m, k));
    SetKeepsDistinct(m, k, Bumped(m, k));
    KeySetAfterSet(m, k, Bumped(m, k));
  }

  /** Every key after `Increment` is `k` or was already there. */
  lemma IncrementKeysFrom(m: seq<(string, nat)>, k: string, j: nat)
    requires j < |Increment(m, k)|
    ensures Increment(m, k)[j].0 == k || (j < |m| && Increment(m, k)[j].0 == m[j].0)
  {
    assert Increment(m, k) == Set(m, k, Bumped(m, k));
  }

  /** The host names of the entries whose `loc` is a URL. */
  ghost function Hosts(es: seq<Entry>, parse: UrlParser): set<string> {
    if es == [] then {}
    else
      var p := parse(es[|es| - 1].loc);
      Hosts(es[..|es| - 1], parse) + (if p.Some? then {p.value.hostname} else {})
  }

  /** Every key of the list is lower-case. */
  ghost predicate LowerKeys(m: seq<(string, nat)>) {
    forall j :: 0 <= j < |m| ==> IsLower(m[j].0)
  }

  /** ASCII `toLowerCase` leaves no upper-case letter. */
  lemma ToLowerIsLower(s: string)
    ensures IsLower(ToLower(s))
  {
  }

  /** The field counters and the dates after the callback has run on `es`. */
  ghost predicate CountersAccount(t: Tally, es: seq<Entry>, parse: UrlParser) {
    && t.hasLastmod == Filled(es, Lastmod)
    && t.hasChangefreq == Filled(es, Changefreq)
    && t.hasPriority == Filled(es, Priority)
    && |t.dates| == t.hasLastmod
    && t.httpsCount == HttpsCount(es, parse)
  }

  /** The dates are exactly the non-empty `lastmod` values seen. */
  ghost predicate DatesAccount(t: Tally, es: seq<Entry>) {
    && (forall k :: 0 <= k < |es| && es[k].lastmod != [] ==> es[k].lastmod in t.dates)
    && (forall d :: d in t.dates ==> d != [] && exists k :: 0 <= k < |es| && es[k].lastmod == d)
  }

  /** The host map after the callback has run on `es`. */
  ghost predicate DomainsAccount(t: Tally, es: seq<Entry>, parse: UrlParser) {
    && Sum(t.domains) == Parsed(es, parse)
    && Distinct(Keys(t.domains)) && KeySet(t.domains) == Hosts(es, parse)
  }

  /** The change-frequency histogram after the callback has run on `es`. */
  ghost predicate FreqAccount(t: Tally, es: seq<Entry>) {
    && Sum(t.freqDist) == Filled(es, Changefreq)
    && Distinct(Keys(t.freqDist)) && LowerKeys(t.freqDist)
  }

  /** Every host's count is the number of entries with that host; other hosts have none. */
  ghost predicate DomainCounts(t: Tally, es: seq<Entry>, parse: UrlParser) {
    forall h :: Get(t.domains, h) == Counted(HostCount(es, parse, h))
  }

  /** Every frequency's count is the number of entries with it; other keys have none. */
  ghost predicate FreqCounts(t: Tally, es: seq<Entry>) {
    forall f :: Get(t.freqDist, f) == Counted(FreqCount(es, f))
  }

  /** What the callback's variables amount to after any prefix of the entries. */
  ghost predicate Accounts(t: Tally, es: seq<Entry>, parse: UrlParser) {
    && CountersAccount(t, es, parse) && DatesAccount(t, es) && DomainsAccount(t, es, parse) && FreqAccount(t, es)
    && DomainCounts(t, es, parse) && FreqCounts(t, es)
  }

  /**
   * The counters count the entries with the field filled in, and `httpsCount`
   * the entries with an `https:` URL; each host maps to the number of entries
   * with that host, and the counts add up to the entries whose `loc` parses;
   * each lower-cased frequency maps to the number of entries with it, and
   * the counts add up to the entries with one; every recorded date is a
   * non-empty `lastmod`.
   */
  lemma TallyAccounts(es: seq<Entry>, parse: UrlParser)
    ensures Accounts(TallyOf(es, parse), es, parse)
  {
    TallyCounters(es, parse);
    TallyDates(es, parse);
    TallyDomains(es, parse);
    TallyFreq(es, parse);
    TallyDomainCounts(es, parse);
    TallyFreqCounts(es, parse);
  }

  lemma {:induction false} TallyCounters(es: seq<Entry>, parse: UrlParser)
    ensures CountersAccount(TallyOf(es, parse), es, parse)
    decreases |es|
  {
    if es != [] {
      var n := |es| - 1;
      TallyCounters(es[..n], parse);
      assert TallyOf(es, parse) == Count(TallyOf(es[..n], parse), es[n], parse);
      CountersStep(TallyOf(es[..n], parse), es, parse);
    }
  }

  lemma {:induction false} TallyDates(es: seq<Entry>, parse: UrlParser)
    ensures DatesAccount(TallyOf(es, parse), es)
    decreases |es|
  {
    if es != [] {
      var n := |es| - 1;
      TallyDates(es[..n], parse);
      assert TallyOf(es, parse) == Count(TallyOf(es[..n], parse), es[n], parse);
      DatesStep(TallyOf(es[..n], parse), es, parse);
    }
  }

  lemma {:induction false} TallyDomains(es: seq<Entry>, parse: UrlParser)
    ensures DomainsAccount(TallyOf(es, parse), es, parse)
    decreases |es|
  {
    if es != [] {
      var n := |es| - 1;
      TallyDomains(es[..n], parse);
      assert TallyOf(es, parse) == Count(TallyOf(es[..n], parse), es[n], parse);
      DomainsStep(TallyOf(es[..n], parse), es, parse);
    }
  }

  lemma {:induction false} TallyFreq(es: seq<Entry>, parse: UrlParser)
    ensures FreqAccount(TallyOf(es, parse), es)
    decreases |es|
  {
    if es != [] {
      var n := |es| - 1;
      TallyFreq(es[..n], parse);
      assert TallyOf(es, parse) == Count(TallyOf(es[..n], parse), es[n], parse);
      FreqStep(TallyOf(es[..n], parse), es, parse);
    }
  }

  lemma {:induction false} TallyDomainCounts(es: seq<Entry>, parse: UrlParser)
    ensures DomainCounts(TallyOf(es, parse), es, parse)
    decreases |es|
  {
    if es != [] {
      var n := |es| - 1;
      TallyDomainCounts(es[..n], parse);
      assert TallyOf(es, parse) == Count(TallyOf(es[..n], parse), es[n], parse);
      DomainCountsStep(TallyOf(es[..n], parse), es, parse);
    }
  }

  lemma {:induction false} TallyFreqCounts(es: seq<Entry>, parse: UrlParser)
    ensures FreqCounts(TallyOf(es, parse), es)
    decreases |es|
  {
    if es != [] {
      var n := |es| - 1;
      TallyFreqCounts(es[..n], parse);
      assert TallyOf(es, parse) == Count(TallyOf(es[..n], parse), es[n], parse);
      FreqCountsStep(TallyOf(es[..n], parse), es, parse);
    }
  }

  // Each step lemma takes an account of all entries but the last, held by `t`,
  // to an account of all of them after the callback has run on the last.

  lemma CountersStep(t: Tally, es: seq<Entry>, parse: UrlParser)
    requires es != [] && CountersAccount(t, es[..|es| - 1], parse)
    ensures CountersAccount(Count(t, es[|es| - 1], parse), es, parse)
  {
    var n := |es| - 1;
    var e := es[n];
    var t' := Count(t, e, parse);
    assert t'.dates == t.dates + (if e.lastmod != [] then [e.lastmod] else []);
    assert forall f :: Filled(es, f) == Filled(es[..n], f) + (if FieldOf(e, f) != [] then 1 else 0);
    assert HttpsCount(es, parse) == HttpsCount(es[..n], parse)
      + (if parse(e.loc).Some? && parse(e.loc).value.protocol == "https:" then 1 else 0);
  }

  lemma DatesStep(t: Tally, es: seq<Entry>, parse: UrlParser)
    requires es != [] && DatesAccount(t, es[..|es| - 1])
    ensures DatesAccount(Count(t, es[|es| - 1], parse), es)
  {
    var n := |es| - 1;
    var e := es[n];
    var t' := Count(t, e, parse);
    assert t'.dates == t.dates + (if e.lastmod != [] then [e.lastmod] else []);
    forall k | 0 <= k < |es| && es[k].lastmod != []
      ensures es[k].lastmod in t'.dates
    {
      if k < n {
        assert es[..n][k] == es[k];
      }
    }
    forall d | d in t'.dates
      ensures d != [] && exists k :: 0 <= k < |es| && es[k].lastmod == d
    {
      if d in t.dates {
        var k :| 0 <= k < n && es[..n][k].lastmod == d;
        assert es[k] == es[..n][k];
      } else {
        assert es[n].lastmod == d;
      }
    }
  }

  lemma DomainsStep(t: Tally, es: seq<Entry>, parse: UrlParser)
    requires es != [] && DomainsAccount(t, es[..|es| - 1], parse)
    ensures DomainsAccount(Count(t, es[|es| - 1], parse), es, parse)
  {
    var e := es[|es| - 1];
    if parse(e.loc).Some? {
      var h := parse(e.loc).value.hostname;
      SumIncrement(t.domains, h);
      IncrementKeySet(t.domains, h);
    }
  }

  lemma FreqStep(t: Tally, es: seq<Entry>, parse: UrlParser)
    requires es != [] && FreqAccount(t, es[..|es| - 1])
    ensures FreqAccount(Count(t, es[|es| - 1], parse), es)
  {
    var e := es[|es| - 1];
    if e.changefreq != [] {
      var f := ToLower(e.changefreq);
      var m := Increment(t.freqDist, f);
      SumIncrement(t.freqDist, f);
      IncrementKeySet(t.freqDist, f);
      ToLowerIsLower(e.changefreq);
      forall j | 0 <= j < |m|
        ensures IsLower(m[j].0)
      {
        IncrementKeysFrom(t.freqDist, f, j);
      }
    }
  }

  lemma DomainCountsStep(t: Tally, es: seq<Entry>, parse: UrlParser)
    requires es != [] && DomainCounts(t, es[..|es| - 1], parse)
    ensures DomainCounts(Count(t, es[|es| - 1], parse), es, parse)
  {
    var n := |es| - 1;
    var p := parse(es[n].loc);
    var t' := Count(t, es[n], parse);
    forall h
      ensures Get(t'.domains, h) == Counted(HostCount(es, parse, h))
    {
      assert HostCount(es, parse, h) == HostCount(es[..n], parse, h) + (if p.Some? && p.value.hostname == h then 1 else 0);
      if p.Some? {
        IncrementCounted(t.domains, p.value.hostname, h, HostCount(es[..n], parse, h));
      }
    }
  }

  lemma FreqCountsStep(t: Tally, es: seq<Entry>, parse: UrlParser)
    requires es != [] && FreqCounts(t, es[..|es| - 1])
    ensures FreqCounts(Count(t, es[|es| - 1], parse), es)
  {
    var n := |es| - 1;
    var c := es[n].changefreq;
    CountFreqDist(t, es[n], parse);
    if c == [] {
      forall f
        ensures Get(t.freqDist, f) == Counted(FreqCount(es, f))
      {
        FreqCountLast(es, f);
      }
    } else {
      var k := ToLower(c);
      forall f
        ensures Get(Increment(t.freqDist, k), f) == Counted(FreqCount(es, f))
      {
        FreqCountLast(es, f);
        IncrementCounted(t.freqDist, k, f, FreqCount(es[..n], f));
      }
    }
  }

  /** What the callback does to the frequency map. */
  lemma CountFreqDist(t: Tally, e: Entry, parse: UrlParser)
    ensures Count(t, e, parse).freqDist ==
      if e.changefreq != [] then Increment(t.freqDist, ToLower(e.changefreq)) else t.freqDist
  {
  }

  lemma FreqCountLast(es: seq<Entry>, f: string)
    requires es != []
    ensures var c := es[|es| - 1].changefreq;
      FreqCount(es, f) == FreqCount(es[..|es| - 1], f) + (if c != [] && ToLower(c) == f then 1 else 0)
  {
  }

  /** A count held for `f` goes up by one exactly when `f` is the key incremented. */
  lemma IncrementCounted(m: seq<(string, nat)>, k: string, f: string, before: nat)
    requires Get(m, f) == Counted(before)
    ensures Get(Increment(m, k), f) == Counted(before + if f == k then 1 else 0)
  {
    GetIncrement(m, k, f);
  }

  /** Incrementing `k` adds one to its count, a missing one counting as 0, and leaves the other keys alone. */
  lemma GetIncrement(m: seq<(string, nat)>, k: string, h: string)
    ensures Get(Increment(m, k), h) == if h == k then Some(Bumped(m, k)) else Get(m, h)
  {
    assert Increment(m, k) == Set(m, k, Bumped(m, k));
    if h != k {
      GetAfterSet(m, k, Bumped(m, k), h);
    }
  }

  // ---------------------------------------------------------------------------
  // The top hosts and the date range

  /**
   * At most eight hosts, by non-increasing count, each one of the map's pairs;
   * a host left out has no more URLs than any host kept.
   */
  lemma TopDomains(domains: seq<(string, nat)>)
    ensures |Top(domains)| == if |domains| <= TopCount then |domains| else TopCount
    ensures SortedDesc(Top(domains), CountOf)
    ensures forall j :: 0 <= j < |Top(domains)| ==> Top(domains)[j] in domains
    ensures multiset(Top(domains)) <= multiset(domains)
    ensures forall p :: p in domains && p !in Top(domains) ==>
      forall j :: 0 <= j < |Top(domains)| ==> Top(domains)[j].1 >= p.1
  {
    var sorted := SortDesc(domains, CountOf);
    var top := Top(domains);
    SortDescSorted(domains, CountOf);
    assert top == sorted[..|top|];
    assert sorted == top + sorted[|top|..];
    forall j | 0 <= j < |top|
      ensures top[j] in domains
    {
      assert top[j] in multiset(sorted);
    }
    forall p | p in domains && p !in top
      ensures forall j :: 0 <= j < |top| ==> top[j].1 >= p.1
    {
      assert p in multiset(sorted);
      var k :| 0 <= k < |sorted| && sorted[k] == p;
      forall j | 0 <= j < |top|
        ensures top[j].1 >= p.1
      {
        SortedDescPairwise(sorted, CountOf, j, k);
      }
    }
  }

  /** The first of the sorted dates is one of them and no date is below it. */
  lemma {:induction false} EarliestIsLeast(ds: seq<string>)
    requires ds != []
    ensures Earliest(ds) in ds
    ensures forall d :: d in ds ==> !Less(d, Earliest(ds))
    decreases |ds|
  {
    if |ds| > 1 {
      var p := ds[..|ds| - 1];
      var x := ds[|ds| - 1];
      EarliestIsLeast(p);
      var m := Earliest(p);
      assert ds == p + [x];
      forall d | d in ds
        ensures !Less(d, Earliest(ds))
      {
        if Less(x, m) {
          LessIrreflexive(x);
          if d in p && Less(d, x) {
            LessTransitive(d, x, m);
          }
        } else if d == x {
        }
      }
    } else {
      LessIrreflexive(ds[0]);
    }
  }

  /** The last of the sorted dates is one of them and no date is above it. */
  lemma {:induction false} LatestIsGreatest(ds: seq<string>)
    requires ds != []
    ensures Latest(ds) in ds
    ensures forall d :: d in ds ==> !Less(Latest(ds), d)
    decreases |ds|
  {
    if |ds| > 1 {
      var p := ds[..|ds| - 1];
      var x := ds[|ds| - 1];
      LatestIsGreatest(p);
      var m := Latest(p);
      assert ds == p + [x];
      forall d | d in ds
        ensures !Less(Latest(ds), d)
      {
        if Less(m, x) {
          LessIrreflexive(x);
          if d in p && Less(x, d) {
            LessTransitive(m, x, d);
          }
        }
      }
    } else {
      LessIrreflexive(ds[0]);
    }
  }

  // ---------------------------------------------------------------------------
  // What `analyze` returns

  /**
   * `analyze` on a non-empty list: the totals and coverage counters count the
   * entries; the HTTPS count is the number of entries with an `https:` URL;
   * `domainCount` is the number of distinct hosts; every lower-cased
   * frequency maps to the number of entries with it, the counts adding up to
   * the change-frequency coverage under distinct lower-case keys; at most
   * eight top hosts, busiest first; and the date range runs from the least to
   * the greatest non-empty `lastmod` in string order, or is a dash at both
   * ends when there is none.
   */
  lemma StatsFacts(es: seq<Entry>, parse: UrlParser)
    requires es != []
    ensures var s := StatsOf(es, parse);
      && s.total == |es|
      && s.lastmodCount == Filled(es, Lastmod)
      && s.changefreqCount == Filled(es, Changefreq)
      && s.priorityCount == Filled(es, Priority)
      && s.httpsCount == HttpsCount(es, parse) <= s.total
      && s.domainCount == |Hosts(es, parse)|
      && (forall f :: Get(s.freqDist, f) == Counted(FreqCount(es, f)))
      && Sum(s.freqDist) == s.changefreqCount && Distinct(Keys(s.freqDist)) && LowerKeys(s.freqDist)
      && |s.topDomains| <= TopCount && SortedDesc(s.topDomains, CountOf)
      && (s.lastmodCount == 0 ==> s.oldest == Dash && s.newest == Dash)
  {
    var t := TallyOf(es, parse);
    TallyAccounts(es, parse);
    KeySetSize(t.domains);
    TopDomains(t.domains);
  }

  /**
   * Each reported host is a host of the entries, reported once and paired
   * with the number of entries that have it; a host left out of the report
   * has no more entries than any reported one.
   */
  lemma TopHosts(es: seq<Entry>, parse: UrlParser)
    requires es != []
    ensures var top := StatsOf(es, parse).topDomains;
      && Distinct(Keys(top))
      && (forall j :: 0 <= j < |top| ==>
            top[j].0 in Hosts(es, parse) && top[j].1 == HostCount(es, parse, top[j].0))
      && (forall h :: h in Hosts(es, parse) && h !in Keys(top) ==>
            forall j :: 0 <= j < |top| ==> HostCount(es, parse, h) <= top[j].1)
  {
    var t := TallyOf(es, parse);
    var top := Top(t.domains);
    TallyDomains(es, parse);
    TallyDomainCounts(es, parse);
    TopLookups(t.domains);
    forall j | 0 <= j < |top|
      ensures top[j].0 in Hosts(es, parse) && top[j].1 == HostCount(es, parse, top[j].0)
    {
      assert Get(t.domains, top[j].0) == Counted(HostCount(es, parse, top[j].0));
      KeySetIsKeys(t.domains, top[j].0);
    }
    forall h | h in Hosts(es, parse) && h !in Keys(top)
      ensures forall j :: 0 <= j < |top| ==> HostCount(es, parse, h) <= top[j].1
    {
      KeySetIsKeys(t.domains, h);
      assert Get(t.domains, h) == Counted(HostCount(es, parse, h));
    }
  }

  /**
   * Over a map with distinct keys, every reported pair is the map's own
   * entry for its key, and a key left out has a count no greater than any
   * reported one.
   */
  lemma TopLookups(m: seq<(string, nat)>)
    requires Distinct(Keys(m))
    ensures Distinct(Keys(Top(m)))
    ensures forall j :: 0 <= j < |Top(m)| ==> Get(m, Top(m)[j].0) == Some(Top(m)[j].1)
    ensures forall h :: h in Keys(m) && h !in Keys(Top(m)) ==>
      Get(m, h).Some? && forall j :: 0 <= j < |Top(m)| ==> Get(m, h).value <= Top(m)[j].1
  {
    var top := Top(m);
    TopDomains(m);
    SubMapDistinct(m, top);
    forall j | 0 <= j < |top|
      ensures Get(m, top[j].0) == Some(top[j].1)
    {
      var i :| 0 <= i < |m| && m[i] == top[j];
      GetAt(m, i);
    }
    forall h | h in Keys(m) && h !in Keys(top)
      ensures Get(m, h).Some? && forall j :: 0 <= j < |top| ==> Get(m, h).value <= top[j].1
    {
      var i := IndexOf(m, h);
      GetAt(m, i);
    }
  }

  /**
   * With at least one `lastmod`, the range's ends are `lastmod` values of some
   * entries, the oldest is not after the newest, and every entry's `lastmod`
   * lies between them.
   */
  lemma DateRange(es: seq<Entry>, parse: UrlParser)
    requires es != [] && Filled(es, Lastmod) > 0
    ensures var s := StatsOf(es, parse);
      && (exists k :: 0 <= k < |es| && es[k].lastmod == s.oldest)
      && (exists k :: 0 <= k < |es| && es[k].lastmod == s.newest)
      && (s.oldest == s.newest || Less(s.oldest, s.newest))
      && forall k :: 0 <= k < |es| && es[k].lastmod != [] ==>
           !Less(es[k].lastmod, s.oldest) && !Less(s.newest, es[k].lastmod)
  {
    var t := TallyOf(es, parse);
    TallyAccounts(es, parse);
    var ds := t.dates;
    EarliestIsLeast(ds);
    LatestIsGreatest(ds);
    LessTrichotomy(Earliest(ds), Latest(ds));
  }
}
