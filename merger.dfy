/**
 * Merging several sitemaps into one: a pass over every entry of every input
 * that fills an insertion-ordered map keyed by `loc`, optional de-duplication
 * that keeps the entry with the newest `lastmod`, and an optional stable sort
 * by priority.
 */
module Merger {
  import opened Wrappers
  import opened Text
  import opened Sitemap
  import opened OrderedMap
  import opened Sorting

  /** One input: a file name and its entries. */
  datatype Source = Source(name: string, entries: seq<Entry>)

  /** An entry copied with the name of the input it came from (`_source`). */
  datatype Tagged = Tagged(entry: Entry, source: string)

  datatype Options = Options(removeDuplicates: bool, sortByPriority: bool)

  datatype MergeResult = MergeResult(entries: seq<Tagged>, totalInput: nat, uniqueCount: nat, duplicatesRemoved: int)

  /**
   * `parseFloat(priority)` mapped to a comparable integer. Floating point is
   * not part of this model; an empty priority counts as `"0.5"`.
   */
  type PriorityRank = string -> int

  function PriorityKey(rank: PriorityRank): Tagged -> int {
    (t: Tagged) => if t.entry.priority == [] then rank("0.5") else rank(t.entry.priority)
  }

  // ---------------------------------------------------------------------------
  // The specification of the map-filling pass

  /** Every (input name, entry) pair in visiting order. */
  function Items(ss: seq<Source>): (r: seq<(string, Entry)>)
    ensures |r| == TotalLength(ss)
  {
    if ss == [] then [] else Items(ss[..|ss| - 1]) + Pairs(ss[|ss| - 1].name, ss[|ss| - 1].entries)
  }

  /** The entries of one input, each paired with the input's name. */
  function Pairs(name: string, es: seq<Entry>): (r: seq<(string, Entry)>)
    ensures |r| == |es|
  {
    if es == [] then [] else Pairs(name, es[..|es| - 1]) + [(name, es[|es| - 1])]
  }

  /** The pairs before entry `j + 1` are those before entry `j`, then entry `j`'s. */
  lemma PairsPrefix(before: seq<(string, Entry)>, name: string, es: seq<Entry>, j: nat)
    requires j < |es|
    ensures before + Pairs(name, es[..j + 1]) == (before + Pairs(name, es[..j])) + [(name, es[j])]
  {
    assert es[..j + 1][..j] == es[..j];
  }

  /** The sum of the input list lengths. */
  function TotalLength(ss: seq<Source>): nat {
    if ss == [] then 0 else TotalLength(ss[..|ss| - 1]) + |ss[|ss| - 1].entries|
  }

  /** The tie-break of the de-duplicating branch: the newcomer has a `lastmod` newer than the kept one. */
  predicate Replaces(newer: string, kept: string) {
    newer != [] && (kept == [] || Less(kept, newer))
  }

  /** The key a duplicate is stored under when duplicates are kept. */
  function NumberedKey(loc: string, n: nat): string {
    loc + "#" + NatToString(n)
  }

  /** Processing the `n`-th entry (counting from 1), from input `name`. */
  function Step(m: seq<(string, Tagged)>, n: nat, name: string, e: Entry, dedup: bool): seq<(string, Tagged)> {
    var t := Tagged(e, name);
    match Get(m, e.loc)
    case None => Set(m, e.loc, t)
    case Some(kept) =>
      if dedup then (if Replaces(e.lastmod, kept.entry.lastmod) then Set(m, e.loc, t) else m)
      else Set(m, NumberedKey(e.loc, n), t)
  }

  /** The map after processing `items` in order. */
  function Fill(items: seq<(string, Entry)>, dedup: bool): seq<(string, Tagged)> {
    if items == [] then []
    else
      var p := Fill(items[..|items| - 1], dedup);
      Step(p, |items|, items[|items| - 1].0, items[|items| - 1].1, dedup)
  }

  /** Each entry adds at most one key, and keys stay pairwise distinct. */
  lemma {:induction false} FillShape(items: seq<(string, Entry)>, dedup: bool)
    ensures |Fill(items, dedup)| <= |items|
    ensures Distinct(Keys(Fill(items, dedup)))
  {
    if items != [] {
      var p := Fill(items[..|items| - 1], dedup);
      var (name, e) := items[|items| - 1];
      FillShape(items[..|items| - 1], dedup);
      assert Fill(items, dedup) == Step(p, |items|, name, e, dedup);
      var t := Tagged(e, name);
      if Get(p, e.loc).None? || dedup {
        SetKeepsDistinct(p, e.loc, t);
      } else {
        SetKeepsDistinct(p, NumberedKey(e.loc, |items|), t);
      }
    }
  }

  /** What `merge` returns. */
  function MergeSpec(ss: seq<Source>, opts: Options, rank: PriorityRank): MergeResult {
    var items := Items(ss);
    var values := Values(Fill(items, opts.removeDuplicates));
    var merged := if opts.sortByPriority then SortDesc(values, PriorityKey(rank)) else values;
    MergeResult(merged, |items|, |merged|, |items| - |merged|)
  }

  // ---------------------------------------------------------------------------
  // The method

  /** `merge`: the nested `forEach` over inputs and entries, then the optional sort. */
  method Merge(ss: seq<Source>, opts: Options, rank: PriorityRank) returns (r: MergeResult)
    ensures r == MergeSpec(ss, opts, rank)
    ensures r.totalInput == TotalLength(ss)
    ensures r.uniqueCount == |r.entries| && r.duplicatesRemoved == r.totalInput - r.uniqueCount
  {
    var totalInput, urlMap := MergeAll(ss, opts.removeDuplicates);
    var merged := Values(urlMap);
    if opts.sortByPriority {
      merged := SortDesc(merged, PriorityKey(rank));
    }
    assert merged == MergeSpec(ss, opts, rank).entries;
    r := MergeResult(merged, totalInput, |merged|, totalInput - |merged|);
  }

  /** The outer `sitemaps.forEach` loop, with the running `totalInput` counter. */
  method MergeAll(ss: seq<Source>, dedup: bool) returns (totalInput: nat, urlMap: seq<(string, Tagged)>)
    ensures totalInput == |Items(ss)| && urlMap == Fill(Items(ss), dedup)
  {
    totalInput, urlMap := 0, [];
    var s := 0;
    ghost var done: seq<(string, Entry)> := [];
    while s < |ss|
      invariant 0 <= s <= |ss|
      invariant done == Items(ss[..s])
      invariant totalInput == |done| && urlMap == Fill(done, dedup)
    {
      totalInput, urlMap := MergeOne(ss[s], done, totalInput, urlMap, dedup);
      ItemsPrefix(ss, s);
      done := done + Pairs(ss[s].name, ss[s].entries);
      s := s + 1;
    }
    assert ss[..s] == ss;
  }

  lemma ItemsPrefix(ss: seq<Source>, s: nat)
    requires s < |ss|
    ensures Items(ss[..s + 1]) == Items(ss[..s]) + Pairs(ss[s].name, ss[s].entries)
  {
    assert ss[..s + 1][..s] == ss[..s];
  }

  /** The inner `sitemap.entries.forEach` loop for one input. */
  method MergeOne(src: Source, ghost before: seq<(string, Entry)>, total0: nat, m0: seq<(string, Tagged)>, dedup: bool)
    returns (total: nat, m: seq<(string, Tagged)>)
    requires total0 == |before| && m0 == Fill(before, dedup)
    ensures total == |before + Pairs(src.name, src.entries)|
    ensures m == Fill(before + Pairs(src.name, src.entries), dedup)
  {
    total, m := total0, m0;
    var j := 0;
    ghost var done := before;
    assert before + Pairs(src.name, src.entries[..0]) == before;
    while j < |src.entries|
      invariant 0 <= j <= |src.entries|
      invariant done == before + Pairs(src.name, src.entries[..j])
      invariant total == |done| && m == Fill(done, dedup)
    {
      total, m := MergeNext(done, total, m, src.name, src.entries[j], dedup);
      PairsPrefix(before, src.name, src.entries, j);
      done := done + [(src.name, src.entries[j])];
      j := j + 1;
    }
    assert src.entries[..j] == src.entries;
  }

  lemma FillStep(done: seq<(string, Entry)>, name: string, e: Entry, dedup: bool)
    ensures Fill(done + [(name, e)], dedup) == Step(Fill(done, dedup), |done| + 1, name, e, dedup)
  {
    assert (done + [(name, e)])[..|done|] == done;
  }

  /** One iteration of the inner loop: count the entry, then update the map. */
  method MergeNext(ghost done: seq<(string, Entry)>, total0: nat, m0: seq<(string, Tagged)>, name: string, entry: Entry, dedup: bool)
    returns (total: nat, m: seq<(string, Tagged)>)
    requires total0 == |done| && m0 == Fill(done, dedup)
    ensures total == |done + [(name, entry)]| && m == Fill(done + [(name, entry)], dedup)
  {
    FillStep(done, name, entry, dedup);
    total := total0 + 1;
    m := MergeEntry(m0, total, name, entry, dedup);
  }

  /** The body of the inner loop after `totalInput++`: one `urlMap` update. */
  method MergeEntry(m0: seq<(string, Tagged)>, total: nat, name: string, entry: Entry, dedup: bool)
    returns (m: seq<(string, Tagged)>)
    ensures m == Step(m0, total, name, entry, dedup)
  {
    m := m0;
    var existing := Get(m, entry.loc);
    if existing.None? {
      m := Set(m, entry.loc, Tagged(entry, name));
    } else if dedup {
      if entry.lastmod != [] && (existing.value.entry.lastmod == [] || Less(existing.value.entry.lastmod, entry.lastmod)) {
        m := Set(m, entry.loc, Tagged(entry, name));
      }
    } else {
      var key := entry.loc + "#" + NatToString(total);
      m := Set(m, key, Tagged(entry, name));
    }
  }

  // ---------------------------------------------------------------------------
  // Properties

  /** Counting: the totals the result reports. */
  lemma MergeCounts(ss: seq<Source>, opts: Options, rank: PriorityRank)
    ensures var r := MergeSpec(ss, opts, rank);
      && r.totalInput == TotalLength(ss)
      && r.uniqueCount == |r.entries| <= r.totalInput
      && r.duplicatesRemoved == r.totalInput - r.uniqueCount >= 0
  {
    FillShape(Items(ss), opts.removeDuplicates);
  }

  /** The locs of a list of items. */
  ghost function ItemLocs(items: seq<(string, Entry)>): set<string> {
    if items == [] then {} else ItemLocs(items[..|items| - 1]) + {items[|items| - 1].1.loc}
  }

  /** With de-duplication every stored value sits under its own `loc`. */
  lemma {:induction false} DedupKeyedByLoc(items: seq<(string, Entry)>)
    ensures forall i :: 0 <= i < |Fill(items, true)| ==> Fill(items, true)[i].1.entry.loc == Fill(items, true)[i].0
  {
    if items != [] {
      var p := items[..|items| - 1];
      DedupKeyedByLoc(p);
    }
  }

  /** With de-duplication the stored keys are exactly the input locs. */
  lemma {:induction false} DedupKeys(items: seq<(string, Entry)>)
    ensures KeySet(Fill(items, true)) == ItemLocs(items)
  {
    if items != [] {
      var p := items[..|items| - 1];
      var (name, e) := items[|items| - 1];
      DedupKeys(p);
      var m := Fill(p, true);
      KeySetAfterSet(m, e.loc, Tagged(e, name));
      KeySetIsKeys(m, e.loc);
    }
  }

  /** The `loc`s of the items, in order. */
  function ItemLocList(items: seq<(string, Entry)>): (ls: seq<string>)
    ensures |ls| == |items| && forall i :: 0 <= i < |items| ==> ls[i] == items[i].1.loc
  {
    seq(|items|, i requires 0 <= i < |items| => items[i].1.loc)
  }

  /** With de-duplication the key order is first-occurrence order. */
  lemma {:induction false} DedupOrder(items: seq<(string, Entry)>)
    ensures Keys(Fill(items, true)) == Dedup(ItemLocList(items))
  {
    if items != [] {
      var n := |items| - 1;
      var p, e := items[..n], items[n].1;
      DedupOrder(p);
      var ls := ItemLocList(items);
      assert ls[..n] == ItemLocList(p);
      assert ls[n] == e.loc;
      assert Dedup(ls) == if e.loc in Dedup(ls[..n]) then Dedup(ls[..n]) else Dedup(ls[..n]) + [e.loc];
    }
  }

  /** The `loc`s of the merged entries, before any sort. */
  function MergedLocs(items: seq<(string, Entry)>, dedup: bool): (r: seq<string>)
    ensures |r| == |Fill(items, dedup)|
  {
    var vs := Values(Fill(items, dedup));
    seq(|vs|, i requires 0 <= i < |vs| => vs[i].entry.loc)
  }

  /** With de-duplication the output `loc`s are pairwise distinct and are exactly the input `loc`s. */
  lemma DedupLocs(ss: seq<Source>, l: string)
    ensures Distinct(MergedLocs(Items(ss), true))
    ensures l in MergedLocs(Items(ss), true) <==> l in ItemLocs(Items(ss))
  {
    var items := Items(ss);
    var m := Fill(items, true);
    FillShape(items, true);
    DedupKeyedByLoc(items);
    DedupKeys(items);
    KeySetIsKeys(m, l);
    assert MergedLocs(items, true) == Keys(m);
  }

  /** With the priority sort, the output is the merged list sorted stably by non-increasing priority. */
  lemma MergeSorted(ss: seq<Source>, opts: Options, rank: PriorityRank, v: int)
    requires opts.sortByPriority
    ensures var out := MergeSpec(ss, opts, rank).entries;
      var vs := Values(Fill(Items(ss), opts.removeDuplicates));
      && SortedDesc(out, PriorityKey(rank))
      && multiset(out) == multiset(vs)
      && WithKey(out, PriorityKey(rank), v) == WithKey(vs, PriorityKey(rank), v)
  {
    var vs := Values(Fill(Items(ss), opts.removeDuplicates));
    SortDescSorted(vs, PriorityKey(rank));
    SortDescStable(vs, PriorityKey(rank), v);
  }

  /** The de-duplication tie-break is JavaScript's `<` on the two `lastmod` strings: the empty string is below every other. */
  lemma ReplacesIsLess(newer: string, kept: string)
    ensures Replaces(newer, kept) <==> Less(kept, newer)
  {
  }

  /**
   * Item `w` carries the newest `lastmod` of its `loc` (JavaScript `<`, the
   * empty string lowest) and is the earliest item that does.
   */
  ghost predicate Newest(items: seq<(string, Entry)>, w: nat)
    requires w < |items|
  {
    && (forall j :: 0 <= j < |items| && items[j].1.loc == items[w].1.loc ==> !Less(items[w].1.lastmod, items[j].1.lastmod))
    && (forall j :: 0 <= j < w && items[j].1.loc == items[w].1.loc ==> Less(items[j].1.lastmod, items[w].1.lastmod))
  }

  /**
   * What the de-duplicating map holds for `loc` after `items`: nothing
   * exactly when no item has that `loc`, and otherwise the item that is
   * `Newest` for it, tagged with the name of its input.
   */
  ghost predicate KeptNewest(items: seq<(string, Entry)>, held: Option<Tagged>, loc: string) {
    && (held.None? ==> forall j :: 0 <= j < |items| ==> items[j].1.loc != loc)
    && (held.Some? ==> exists w ::
          && 0 <= w < |items| && items[w].1.loc == loc
          && held.value == Tagged(items[w].1, items[w].0)
          && Newest(items, w))
  }

  /**
   * With de-duplication, the value kept for `loc` is the earliest of the
   * entries with the newest `lastmod` for that `loc` (the first occurrence
   * when none has a `lastmod`), tagged with the name of its input; `loc` is
   * absent exactly when no entry has it.
   */
  lemma {:induction false} DedupKeepsNewest(items: seq<(string, Entry)>, loc: string)
    ensures KeptNewest(items, Get(Fill(items, true), loc), loc)
  {
    if items != [] {
      var p := items[..|items| - 1];
      var (name, e) := items[|items| - 1];
      assert items == p + [(name, e)];
      DedupKeepsNewest(p, loc);
      FillStep(p, name, e, true);
      KeptNewestStep(p, Fill(p, true), name, e, loc);
    }
  }

  /** One step of the de-duplicating fill keeps `KeptNewest`. */
  lemma KeptNewestStep(p: seq<(string, Entry)>, m: seq<(string, Tagged)>, name: string, e: Entry, loc: string)
    requires KeptNewest(p, Get(m, loc), loc)
    ensures KeptNewest(p + [(name, e)], Get(Step(m, |p| + 1, name, e, true), loc), loc)
  {
    if e.loc != loc {
      KeptOtherLoc(p, m, name, e, loc);
    } else if Get(m, loc).None? {
      KeptFirst(p, m, name, e, loc);
    } else {
      KeptCompared(p, m, name, e, loc);
    }
  }

  /** An entry for another `loc` leaves what is held for `loc`. */
  lemma KeptOtherLoc(p: seq<(string, Entry)>, m: seq<(string, Tagged)>, name: string, e: Entry, loc: string)
    requires KeptNewest(p, Get(m, loc), loc) && e.loc != loc
    ensures KeptNewest(p + [(name, e)], Get(Step(m, |p| + 1, name, e, true), loc), loc)
  {
    var items := p + [(name, e)];
    StepOtherLoc(m, |p| + 1, name, e, loc);
    if Get(m, loc).Some? {
      var w :| 0 <= w < |p| && p[w].1.loc == loc && Get(m, loc).value == Tagged(p[w].1, p[w].0) && Newest(p, w);
      NewestExtend(p, w, name, e);
      assert items[w] == p[w];
    } else {
      forall j | 0 <= j < |items| ensures items[j].1.loc != loc {
        if j < |p| {
          assert items[j] == p[j];
        }
      }
    }
  }

  /** A de-duplicating step for another `loc` leaves the value held for `loc` alone. */
  lemma StepOtherLoc(m: seq<(string, Tagged)>, n: nat, name: string, e: Entry, loc: string)
    requires e.loc != loc
    ensures Get(Step(m, n, name, e, true), loc) == Get(m, loc)
  {
    GetAfterSet(m, e.loc, Tagged(e, name), loc);
  }

  /** The first entry for `loc` is held. */
  lemma KeptFirst(p: seq<(string, Entry)>, m: seq<(string, Tagged)>, name: string, e: Entry, loc: string)
    requires KeptNewest(p, Get(m, loc), loc) && e.loc == loc && Get(m, loc).None?
    ensures KeptNewest(p + [(name, e)], Get(Step(m, |p| + 1, name, e, true), loc), loc)
  {
    var items := p + [(name, e)];
    assert items[|p|] == (name, e);
    assert forall j :: 0 <= j < |p| ==> items[j] == p[j];
    assert Get(Step(m, |p| + 1, name, e, true), loc) == Some(Tagged(e, name));
    LessIrreflexive(e.lastmod);
    assert Newest(items, |p|);
  }

  /** A later entry for `loc` takes over exactly when its `lastmod` is newer. */
  lemma KeptCompared(p: seq<(string, Entry)>, m: seq<(string, Tagged)>, name: string, e: Entry, loc: string)
    requires KeptNewest(p, Get(m, loc), loc) && e.loc == loc && Get(m, loc).Some?
    ensures KeptNewest(p + [(name, e)], Get(Step(m, |p| + 1, name, e, true), loc), loc)
  {
    var items := p + [(name, e)];
    assert items[|p|] == (name, e);
    assert forall j :: 0 <= j < |p| ==> items[j] == p[j];
    var kept := Get(m, loc).value;
    var w :| 0 <= w < |p| && p[w].1.loc == loc && kept == Tagged(p[w].1, p[w].0) && Newest(p, w);
    ReplacesIsLess(e.lastmod, kept.entry.lastmod);
    if Less(kept.entry.lastmod, e.lastmod) {
      assert Get(Step(m, |p| + 1, name, e, true), loc) == Some(Tagged(e, name));
      NewestTakeOver(p, w, name, e);
    } else {
      assert Get(Step(m, |p| + 1, name, e, true), loc) == Some(kept);
      NewestExtend(p, w, name, e);
    }
  }

  /** An appended item that is not newer leaves the newest item in place. */
  lemma NewestExtend(p: seq<(string, Entry)>, w: nat, name: string, e: Entry)
    requires w < |p| && Newest(p, w)
    requires e.loc == p[w].1.loc ==> !Less(p[w].1.lastmod, e.lastmod)
    ensures Newest(p + [(name, e)], w)
  {
    var items := p + [(name, e)];
    assert forall j :: 0 <= j < |p| ==> items[j] == p[j];
  }

  /** An appended item strictly newer than the newest one becomes the newest. */
  lemma NewestTakeOver(p: seq<(string, Entry)>, w: nat, name: string, e: Entry)
    requires w < |p| && Newest(p, w)
    requires e.loc == p[w].1.loc && Less(p[w].1.lastmod, e.lastmod)
    ensures Newest(p + [(name, e)], |p|)
  {
    var items := p + [(name, e)];
    var kept := p[w].1.lastmod;
    forall j | 0 <= j < |items| && items[j].1.loc == e.loc
      ensures !Less(e.lastmod, items[j].1.lastmod)
    {
      if j == |p| {
        LessIrreflexive(e.lastmod);
      } else {
        assert items[j] == p[j];
        if Less(e.lastmod, p[j].1.lastmod) {
          LessTransitive(kept, e.lastmod, p[j].1.lastmod);
        }
      }
    }
    forall j | 0 <= j < |p| && items[j].1.loc == e.loc
      ensures Less(items[j].1.lastmod, e.lastmod)
    {
      assert items[j] == p[j];
      LessTrichotomy(p[j].1.lastmod, kept);
      if p[j].1.lastmod != kept {
        LessTransitive(p[j].1.lastmod, kept, e.lastmod);
      }
    }
  }

  /** Every stored record is an input entry tagged with the name of the input it came from. */
  lemma {:induction false} FillTagged(items: seq<(string, Entry)>, dedup: bool)
    ensures forall i :: 0 <= i < |Fill(items, dedup)| ==>
      (Fill(items, dedup)[i].1.source, Fill(items, dedup)[i].1.entry) in items
  {
    if items != [] {
      var p := items[..|items| - 1];
      var (name, e) := items[|items| - 1];
      assert items == p + [(name, e)];
      FillTagged(p, dedup);
      FillStep(p, name, e, dedup);
      var m := Fill(p, dedup);
      var r := Fill(items, dedup);
      forall i | 0 <= i < |r|
        ensures (r[i].1.source, r[i].1.entry) in items
      {
        if r[i].1 != Tagged(e, name) {
          assert i < |m| && r[i] == m[i];
          assert (m[i].1.source, m[i].1.entry) in p;
        }
      }
    }
  }

  /** A numbered key is its `loc`, a `#`, then the number. */
  lemma NumberedKeyHash(loc: string, n: nat)
    ensures NumberedKey(loc, n)[|loc|] == '#'
    ensures NumberedKey(loc, n)[..|loc|] == loc
    ensures NumberedKey(loc, n)[|loc| + 1..] == NatToString(n)
  {
  }

  /** For `loc`s without `#`, a numbered key determines its `loc` and its number. */
  lemma NumberedKeyInjective(l1: string, n1: nat, l2: string, n2: nat)
    requires '#' !in l1 && '#' !in l2
    requires NumberedKey(l1, n1) == NumberedKey(l2, n2)
    ensures l1 == l2 && n1 == n2
  {
    var k := NumberedKey(l1, n1);
    NumberedKeyHash(l1, n1);
    NumberedKeyHash(l2, n2);
    NatToStringInjective(n1, n2);
  }

  /** No key of `m` is a numbered key with a number above `n`. */
  ghost predicate NumbersUpTo(m: seq<(string, Tagged)>, n: nat) {
    forall i, l, j :: 0 <= i < |m| && '#' !in l && j > n ==> m[i].0 != NumberedKey(l, j)
  }

  /**
   * Without de-duplication, when no `loc` contains `#`, no entry is
   * collapsed: each one is stored under a key of its own.
   */
  lemma {:induction false} NoCollapseWithoutHash(items: seq<(string, Entry)>)
    requires forall i :: 0 <= i < |items| ==> '#' !in items[i].1.loc
    ensures |Fill(items, false)| == |items|
    ensures NumbersUpTo(Fill(items, false), |items|)
  {
    if items != [] {
      var p := items[..|items| - 1];
      var (name, e) := items[|items| - 1];
      assert items == p + [(name, e)];
      assert forall i :: 0 <= i < |p| ==> p[i] == items[i];
      NoCollapseWithoutHash(p);
      FillStep(p, name, e, false);
      NoCollapseStep(Fill(p, false), |p|, name, e);
    }
  }

  /** One step of the numbering fill adds exactly one key. */
  lemma NoCollapseStep(m: seq<(string, Tagged)>, n: nat, name: string, e: Entry)
    requires NumbersUpTo(m, n) && '#' !in e.loc
    ensures |Step(m, n + 1, name, e, false)| == |m| + 1
    ensures NumbersUpTo(Step(m, n + 1, name, e, false), n + 1)
  {
    var t := Tagged(e, name);
    var k := if Get(m, e.loc).None? then e.loc else NumberedKey(e.loc, n + 1);
    assert Step(m, n + 1, name, e, false) == Set(m, k, t);
    if k == NumberedKey(e.loc, n + 1) {
      NumberedKeyHash(e.loc, n + 1);
    }
    assert k !in Keys(m);
    var r := m + [(k, t)];
    forall i, l, j | 0 <= i < |r| && '#' !in l && j > n + 1
      ensures r[i].0 != NumberedKey(l, j)
    {
      if i == |m| && k == NumberedKey(l, j) {
        NumberedKeyHash(l, j);
        if k != e.loc {
          NumberedKeyInjective(e.loc, n + 1, l, j);
        }
      }
    }
  }

  /**
   * The exception: a generated key can equal a `loc` already stored. Here
   * the third entry, a second `a`, is keyed `a#3` and overwrites the first.
   */
  lemma CollapseOnStoredKey()
    ensures |Fill([("s", Entry("a#3", "", "", "")), ("s", Entry("a", "", "", "")), ("s", Entry("a", "", "", ""))], false)| == 2
  {
    var a3 := Entry("a#3", "", "", "");
    var a := Entry("a", "", "", "");
    var items := [("s", a3), ("s", a), ("s", a)];
    assert items[..2][..1] == [("s", a3)];
    assert items[..2] == [("s", a3), ("s", a)];
    var m1 := [("a#3", Tagged(a3, "s"))];
    assert Fill([("s", a3)], false) == m1;
    var m2 := m1 + [("a", Tagged(a, "s"))];
    assert Keys(m1) == ["a#3"];
    assert Fill(items[..2], false) == m2;
    assert Keys(m2) == ["a#3", "a"];
    assert NumberedKey("a", 3) == "a#3";
  }
}
