/**
 * The sitemap diff: both sides are indexed by `loc` (the last entry with a
 * given `loc` wins, at the position of that `loc`'s first occurrence), the new
 * index is walked to find added, modified and unchanged entries, the old index
 * to find removed ones, and the result is rendered as a Markdown report.
 */
module Comparer {
  import opened Wrappers
  import opened Text
  import opened Sitemap
  import opened OrderedMap

  datatype Field = Lastmod | Changefreq | Priority

  /** One differing field; an empty side is stored as the literal "(empty)". */
  datatype FieldChange = FieldChange(field: Field, from: string, to: string)

  datatype ModifiedPair = ModifiedPair(url: string, changes: seq<FieldChange>, oldEntry: Entry, newEntry: Entry)

  datatype Diff = Diff(added: seq<Entry>, removed: seq<Entry>, modified: seq<ModifiedPair>, unchangedEntries: seq<Entry>)

  /** The fields `_findChanges` looks at, in its order. */
  const AllFields: seq<Field> := [Lastmod, Changefreq, Priority]

  function FieldName(f: Field): string {
    match f
    case Lastmod => "lastmod"
    case Changefreq => "changefreq"
    case Priority => "priority"
  }

  function Value(e: Entry, f: Field): string {
    match f
    case Lastmod => e.lastmod
    case Changefreq => e.changefreq
    case Priority => e.priority
  }

  /** How a value is stored in a change record: `value || '(empty)'`. */
  function Shown(s: string): string {
    if s == "" then "(empty)" else s
  }

  /** The change record for field `f`, if its values differ. */
  function ChangeOf(o: Entry, n: Entry, f: Field): seq<FieldChange> {
    if Value(o, f) != Value(n, f) then [FieldChange(f, Shown(Value(o, f)), Shown(Value(n, f)))] else []
  }

  /** The change records for the fields `fs`, in their order. */
  function ChangesFor(o: Entry, n: Entry, fs: seq<Field>): seq<FieldChange> {
    if fs == [] then [] else ChangesFor(o, n, fs[..|fs| - 1]) + ChangeOf(o, n, fs[|fs| - 1])
  }

  /** What `_findChanges(o, n)` returns. */
  function Changes(o: Entry, n: Entry): seq<FieldChange> {
    ChangeOf(o, n, Lastmod) + ChangeOf(o, n, Changefreq) + ChangeOf(o, n, Priority)
  }

  /** True when the two entries agree on the three compared fields. */
  predicate SameFields(o: Entry, n: Entry) {
    o.lastmod == n.lastmod && o.changefreq == n.changefreq && o.priority == n.priority
  }

  /**
   * `_findChanges`: a loop over the three field names that pushes a change
   * record for each differing field.
   */
  method FindChanges(o: Entry, n: Entry) returns (changes: seq<FieldChange>)
    ensures changes == Changes(o, n)
  {
    changes := [];
    var i := 0;
    while i < |AllFields|
      invariant 0 <= i <= |AllFields|
      invariant changes == ChangesFor(o, n, AllFields[..i])
    {
      assert AllFields[..i + 1][..i] == AllFields[..i];
      var f := AllFields[i];
      if Value(o, f) != Value(n, f) {
        changes := changes + [FieldChange(f, Shown(Value(o, f)), Shown(Value(n, f)))];
      }
      i := i + 1;
    }
    assert AllFields[..3][..2] == [Lastmod, Changefreq] && [Lastmod, Changefreq][..1] == [Lastmod];
    assert ChangesFor(o, n, [Lastmod]) == ChangeOf(o, n, Lastmod) by {
      assert [Lastmod][..0] == [];
    }
  }

  /** The position of a field in the order `_findChanges` visits them. */
  function Rank(f: Field): nat {
    match f
    case Lastmod => 0
    case Changefreq => 1
    case Priority => 2
  }

  lemma ChangesOrdered(o: Entry, n: Entry)
    ensures forall i, j :: 0 <= i < j < |Changes(o, n)| ==> Rank(Changes(o, n)[i].field) < Rank(Changes(o, n)[j].field)
  {
    var a, b, c := ChangeOf(o, n, Lastmod), ChangeOf(o, n, Changefreq), ChangeOf(o, n, Priority);
    var r := a + b + c;
    assert forall i :: 0 <= i < |r| ==> Rank(r[i].field) == if i < |a| then 0 else if i < |a| + |b| then 1 else 2;
  }

  /**
   * The changes are exactly the differing fields, each once, in the order
   * lastmod, changefreq, priority, with their stored old and new values;
   * a modified pair therefore has between one and three changes.
   */
  lemma ChangesExact(o: Entry, n: Entry)
    ensures |Changes(o, n)| <= 3
    ensures Changes(o, n) == [] <==> SameFields(o, n)
    ensures forall c :: c in Changes(o, n) ==>
      Value(o, c.field) != Value(n, c.field) && c.from == Shown(Value(o, c.field)) && c.to == Shown(Value(n, c.field))
    ensures forall f :: Value(o, f) != Value(n, f) ==> ChangeOf(o, n, f)[0] in Changes(o, n)
  {
    var a, b, c := ChangeOf(o, n, Lastmod), ChangeOf(o, n, Changefreq), ChangeOf(o, n, Priority);
    assert Changes(o, n) == a + b + c;
    forall x | x in Changes(o, n)
      ensures Value(o, x.field) != Value(n, x.field) && x.from == Shown(Value(o, x.field)) && x.to == Shown(Value(n, x.field))
    {
      assert x in a || x in b || x in c;
    }
    forall f | Value(o, f) != Value(n, f)
      ensures ChangeOf(o, n, f)[0] in Changes(o, n)
    {
      match f
      case Lastmod => assert Changes(o, n)[0] == a[0];
      case Changefreq => assert Changes(o, n)[|a|] == b[0];
      case Priority => assert Changes(o, n)[|a| + |b|] == c[0];
    }
  }

  /** The `loc`-keyed index `forEach(e => map.set(e.loc, e))` builds. */
  function Index(es: seq<Entry>): (m: seq<(string, Entry)>)
    ensures Distinct(Keys(m))
    ensures forall i :: 0 <= i < |m| ==> m[i].1.loc == m[i].0
  {
    if es == [] then []
    else
      var p := Index(es[..|es| - 1]);
      var e := es[|es| - 1];
      SetKeepsDistinct(p, e.loc, e);
      Set(p, e.loc, e)
  }

  /** The value of `(k, v)` if `k` does not occur in `other`. */
  function OnlyInStep(k: string, v: Entry, other: seq<(string, Entry)>): seq<Entry> {
    if k in Keys(other) then [] else [v]
  }

  /** The values of `m` whose key does not occur in `other`, in `m`'s order. */
  function OnlyIn(m: seq<(string, Entry)>, other: seq<(string, Entry)>): seq<Entry> {
    if m == [] then [] else OnlyIn(m[..|m| - 1], other) + OnlyInStep(m[|m| - 1].0, m[|m| - 1].1, other)
  }

  /** The modified pair for new entry `v` under key `k`, if `k` is old and a field differs. */
  function ModifiedStep(om: seq<(string, Entry)>, k: string, v: Entry): seq<ModifiedPair> {
    if k in Keys(om) && Changes(Get(om, k).value, v) != [] then [ModifiedPair(k, Changes(Get(om, k).value, v), Get(om, k).value, v)]
    else []
  }

  /** The new entry `v` under key `k`, if `k` is old and no field differs. */
  function UnchangedStep(om: seq<(string, Entry)>, k: string, v: Entry): seq<Entry> {
    if k in Keys(om) && Changes(Get(om, k).value, v) == [] then [v] else []
  }

  /** The pairs of `nm` present in `om` whose fields differ, in `nm`'s order. */
  function ModifiedOf(om: seq<(string, Entry)>, nm: seq<(string, Entry)>): seq<ModifiedPair> {
    if nm == [] then [] else ModifiedOf(om, nm[..|nm| - 1]) + ModifiedStep(om, nm[|nm| - 1].0, nm[|nm| - 1].1)
  }

  /** The entries of `nm` present in `om` with no differing field, in `nm`'s order. */
  function UnchangedOf(om: seq<(string, Entry)>, nm: seq<(string, Entry)>): seq<Entry> {
    if nm == [] then [] else UnchangedOf(om, nm[..|nm| - 1]) + UnchangedStep(om, nm[|nm| - 1].0, nm[|nm| - 1].1)
  }

  /** The diff that `compare(oldEntries, newEntries)` returns. */
  function DiffOf(oldEntries: seq<Entry>, newEntries: seq<Entry>): Diff {
    var om, nm := Index(oldEntries), Index(newEntries);
    Diff(OnlyIn(nm, om), OnlyIn(om, nm), ModifiedOf(om, nm), UnchangedOf(om, nm))
  }

  /** `compare`: index both sides, walk the new index, then the old one. */
  method Compare(oldEntries: seq<Entry>, newEntries: seq<Entry>) returns (d: Diff)
    ensures d == DiffOf(oldEntries, newEntries)
  {
    var oldMap := BuildIndex(oldEntries);
    var newMap := BuildIndex(newEntries);
    var added, modified, same := WalkNew(oldMap, newMap);
    var removed := WalkOld(oldMap, newMap);
    d := Diff(added, removed, modified, same);
  }

  /** The `newMap.forEach` loop of `compare`: added, modified and unchanged entries. */
  method WalkNew(oldMap: seq<(string, Entry)>, newMap: seq<(string, Entry)>)
    returns (added: seq<Entry>, modified: seq<ModifiedPair>, same: seq<Entry>)
    ensures added == OnlyIn(newMap, oldMap)
    ensures modified == ModifiedOf(oldMap, newMap)
    ensures same == UnchangedOf(oldMap, newMap)
  {
    added, modified, same := [], [], [];
    var j := 0;
    while j < |newMap|
      invariant 0 <= j <= |newMap|
      invariant added == OnlyIn(newMap[..j], oldMap)
      invariant modified == ModifiedOf(oldMap, newMap[..j])
      invariant same == UnchangedOf(oldMap, newMap[..j])
    {
      var (url, newEntry) := newMap[j];
      ghost var p := newMap[..j + 1];
      assert p[..j] == newMap[..j] && p[j] == (url, newEntry);
      var existing := Get(oldMap, url);
      if existing.None? {
        added := added + [newEntry];
      } else {
        var changes := FindChanges(existing.value, newEntry);
        if |changes| > 0 {
          modified := modified + [ModifiedPair(url, changes, existing.value, newEntry)];
        } else {
          same := same + [newEntry];
        }
      }
      j := j + 1;
    }
    assert newMap[..|newMap|] == newMap;
  }

  /** The `oldMap.forEach` loop of `compare`: removed entries. */
  method WalkOld(oldMap: seq<(string, Entry)>, newMap: seq<(string, Entry)>) returns (removed: seq<Entry>)
    ensures removed == OnlyIn(oldMap, newMap)
  {
    removed := [];
    var j := 0;
    while j < |oldMap|
      invariant 0 <= j <= |oldMap|
      invariant removed == OnlyIn(oldMap[..j], newMap)
    {
      assert oldMap[..j + 1][..j] == oldMap[..j];
      if oldMap[j].0 !in Keys(newMap) {
        removed := removed + [oldMap[j].1];
      }
      j := j + 1;
    }
    assert oldMap[..|oldMap|] == oldMap;
  }

  lemma IndexPrefix(es: seq<Entry>, i: nat)
    requires i < |es|
    ensures Index(es[..i + 1]) == Set(Index(es[..i]), es[i].loc, es[i])
  {
    assert es[..i + 1][..i] == es[..i];
  }

  /** The `forEach(e => map.set(e.loc, e))` loop of `compare`. */
  method BuildIndex(es: seq<Entry>) returns (m: seq<(string, Entry)>)
    ensures m == Index(es)
  {
    m := [];
    var i := 0;
    while i < |es|
      invariant 0 <= i <= |es|
      invariant m == Index(es[..i])
    {
      IndexPrefix(es, i);
      m := Set(m, es[i].loc, es[i]);
      i := i + 1;
    }
    assert es[..|es|] == es;
  }

  // ---------------------------------------------------------------------------
  // Properties of the diff

  /** The set of `loc`s of a list of entries. */
  ghost function Locs(es: seq<Entry>): set<string> {
    if es == [] then {} else Locs(es[..|es| - 1]) + {es[|es| - 1].loc}
  }

  /** The set of URLs of a list of modified pairs. */
  ghost function Urls(ms: seq<ModifiedPair>): set<string> {
    if ms == [] then {} else Urls(ms[..|ms| - 1]) + {ms[|ms| - 1].url}
  }

  lemma LocsAppend(es: seq<Entry>, tail: seq<Entry>)
    requires |tail| <= 1
    ensures Locs(es + tail) == Locs(es) + (if tail == [] then {} else {tail[0].loc})
  {
    if tail == [] {
      assert es + tail == es;
    } else {
      assert (es + tail)[..|es|] == es;
    }
  }

  lemma UrlsAppend(ms: seq<ModifiedPair>, tail: seq<ModifiedPair>)
    requires |tail| <= 1
    ensures Urls(ms + tail) == Urls(ms) + (if tail == [] then {} else {tail[0].url})
  {
    if tail == [] {
      assert ms + tail == ms;
    } else {
      assert (ms + tail)[..|ms|] == ms;
    }
  }

  /** The index has one key per distinct `loc`. */
  lemma {:induction false} IndexKeys(es: seq<Entry>)
    ensures KeySet(Index(es)) == Locs(es)
  {
    if es != [] {
      var p := es[..|es| - 1];
      var e := es[|es| - 1];
      IndexKeys(p);
      KeySetAfterSet(Index(p), e.loc, e);
    }
  }

  /** The `loc`s of a list of entries, in order. */
  function LocList(es: seq<Entry>): (ls: seq<string>)
    ensures |ls| == |es| && forall i :: 0 <= i < |es| ==> ls[i] == es[i].loc
  {
    seq(|es|, i requires 0 <= i < |es| => es[i].loc)
  }

  /** The keys of the index are the `loc`s in first-occurrence order. */
  lemma {:induction false} IndexKeyOrder(es: seq<Entry>)
    ensures Keys(Index(es)) == Dedup(LocList(es))
  {
    if es != [] {
      var n := |es| - 1;
      var p, e := es[..n], es[n];
      IndexKeyOrder(p);
      var ls := LocList(es);
      assert ls[..n] == LocList(p);
      assert ls[n] == e.loc;
      assert Index(es) == Set(Index(p), e.loc, e);
      assert Dedup(ls) == if e.loc in Dedup(ls[..n]) then Dedup(ls[..n]) else Dedup(ls[..n]) + [e.loc];
    }
  }

  /** Within one side, the entry compared for `loc` is the last one carrying it. */
  lemma {:induction false} IndexKeepsLast(es: seq<Entry>, j: nat)
    requires j < |es|
    requires forall i :: j < i < |es| ==> es[i].loc != es[j].loc
    ensures Get(Index(es), es[j].loc) == Some(es[j])
  {
    var p := es[..|es| - 1];
    var e := es[|es| - 1];
    if j < |es| - 1 {
      IndexKeepsLast(p, j);
      GetAfterSet(Index(p), e.loc, e, es[j].loc);
    }
  }

  /** `OnlyIn(m, other)` holds exactly the keys of `m` missing from `other`, once each. */
  lemma {:induction false} OnlyInKeys(m: seq<(string, Entry)>, other: seq<(string, Entry)>)
    requires Distinct(Keys(m))
    requires forall i :: 0 <= i < |m| ==> m[i].1.loc == m[i].0
    ensures Locs(OnlyIn(m, other)) == KeySet(m) - KeySet(other)
    ensures |OnlyIn(m, other)| == |KeySet(m) - KeySet(other)|
  {
    if m != [] {
      var p := m[..|m| - 1];
      var (k, v) := m[|m| - 1];
      KeyedPrefix(m);
      OnlyInKeys(p, other);
      KeySetIsKeys(other, k);
      KeySetIsKeys(p, k);
      LocsAppend(OnlyIn(p, other), OnlyInStep(k, v, other));
      OnlyStep(KeySet(p), KeySet(other), k);
    }
  }

  /** The set bookkeeping of one step of `OnlyInKeys`. */
  lemma OnlyStep(walked: set<string>, others: set<string>, k: string)
    requires k !in walked
    ensures (walked + {k}) - others == (walked - others) + (if k in others then {} else {k})
    ensures |(walked + {k}) - others| == |walked - others| + (if k in others then 0 else 1)
  {
    if k !in others {
      assert (walked + {k}) - others == (walked - others) + {k};
    } else {
      assert (walked + {k}) - others == walked - others;
    }
  }

  /** The keys present on both sides split between `modified` and `unchanged`, once each. */
  lemma {:induction false} CommonKeys(om: seq<(string, Entry)>, nm: seq<(string, Entry)>)
    requires Distinct(Keys(nm))
    requires forall i :: 0 <= i < |nm| ==> nm[i].1.loc == nm[i].0
    ensures Urls(ModifiedOf(om, nm)) + Locs(UnchangedOf(om, nm)) == KeySet(nm) * KeySet(om)
    ensures Urls(ModifiedOf(om, nm)) !! Locs(UnchangedOf(om, nm))
  {
    if nm != [] {
      var p := nm[..|nm| - 1];
      var (k, v) := nm[|nm| - 1];
      KeyedPrefix(nm);
      CommonKeys(om, p);
      var ms, us := ModifiedStep(om, k, v), UnchangedStep(om, k, v);
      KeySetIsKeys(om, k);
      KeySetIsKeys(p, k);
      UrlsAppend(ModifiedOf(om, p), ms);
      LocsAppend(UnchangedOf(om, p), us);
      var isMod := k in Keys(om) && Changes(Get(om, k).value, v) != [];
      assert (if ms == [] then {} else {ms[0].url}) == (if isMod then {k} else {});
      assert (if us == [] then {} else {us[0].loc}) == (if k in Keys(om) && !isMod then {k} else {});
      CommonStep(Urls(ModifiedOf(om, p)), Locs(UnchangedOf(om, p)), KeySet(p), KeySet(om), k, isMod);
    }
  }

  /** Dropping the last pair keeps a map keyed by `loc` with distinct keys. */
  lemma KeyedPrefix(nm: seq<(string, Entry)>)
    requires nm != []
    requires Distinct(Keys(nm))
    requires forall i :: 0 <= i < |nm| ==> nm[i].1.loc == nm[i].0
    ensures var p := nm[..|nm| - 1];
      && Distinct(Keys(p))
      && (forall i :: 0 <= i < |p| ==> p[i].1.loc == p[i].0)
      && nm[|nm| - 1].0 !in Keys(p)
      && KeySet(nm) == KeySet(p) + {nm[|nm| - 1].0}
  {
    var p := nm[..|nm| - 1];
    assert Keys(nm) == Keys(p) + [nm[|nm| - 1].0];
  }

  /** The set bookkeeping of one step of `CommonKeys`. */
  lemma CommonStep(mods: set<string>, same: set<string>, walked: set<string>, olds: set<string>, k: string, isMod: bool)
    requires mods + same == walked * olds && mods !! same
    requires k !in walked
    requires isMod ==> k in olds
    ensures var mods' := mods + (if isMod then {k} else {});
      var same' := same + (if k in olds && !isMod then {k} else {});
      mods' + same' == (walked + {k}) * olds && mods' !! same'
  {
  }

  /** Each walked key of the new index lands in exactly one of the three lists. */
  lemma {:induction false} NewSideCount(om: seq<(string, Entry)>, nm: seq<(string, Entry)>)
    ensures |OnlyIn(nm, om)| + |ModifiedOf(om, nm)| + |UnchangedOf(om, nm)| == |nm|
  {
    if nm != [] {
      NewSideCount(om, nm[..|nm| - 1]);
    }
  }

  lemma SplitCard(a: set<string>, b: set<string>)
    ensures |a| == |a - b| + |a * b|
  {
    assert a == (a - b) + (a * b);
    assert (a - b) * (a * b) == {};
  }

  /**
   * Every distinct new `loc` lands in exactly one of added, modified and
   * unchanged; removed holds exactly the `loc`s found only on the old side.
   */
  lemma DiffPartition(oldEntries: seq<Entry>, newEntries: seq<Entry>)
    ensures var d := DiffOf(oldEntries, newEntries);
      && Locs(d.added) == Locs(newEntries) - Locs(oldEntries)
      && Locs(d.removed) == Locs(oldEntries) - Locs(newEntries)
      && Urls(d.modified) + Locs(d.unchangedEntries) == Locs(newEntries) * Locs(oldEntries)
      && Urls(d.modified) !! Locs(d.unchangedEntries)
      && Locs(d.added) !! Urls(d.modified) + Locs(d.unchangedEntries)
  {
    var om, nm := Index(oldEntries), Index(newEntries);
    IndexKeys(oldEntries);
    IndexKeys(newEntries);
    OnlyInKeys(nm, om);
    OnlyInKeys(om, nm);
    CommonKeys(om, nm);
    assert KeySet(nm) * KeySet(om) == Locs(newEntries) * Locs(oldEntries);
  }

  /**
   * added + modified + unchanged is the number of distinct new `loc`s, and
   * removed + modified + unchanged the number of distinct old ones.
   */
  lemma DiffCounts(oldEntries: seq<Entry>, newEntries: seq<Entry>)
    ensures var d := DiffOf(oldEntries, newEntries);
      && |d.added| + |d.modified| + |d.unchangedEntries| == |Locs(newEntries)|
      && |d.removed| + |d.modified| + |d.unchangedEntries| == |Locs(oldEntries)|
  {
    var om, nm := Index(oldEntries), Index(newEntries);
    IndexKeys(oldEntries);
    IndexKeys(newEntries);
    KeySetSize(nm);
    NewSideCount(om, nm);
    OnlyInKeys(nm, om);
    OnlyInKeys(om, nm);
    var n, o := KeySet(nm), KeySet(om);
    SplitCard(n, o);
    SplitCard(o, n);
    assert n * o == o * n;
  }

  /**
   * Each pair `ModifiedOf` reports comes from the new map, carries the old
   * map's entry for its key, and records that pair's non-empty changes.
   */
  lemma {:induction false} ModifiedOfPairs(om: seq<(string, Entry)>, nm: seq<(string, Entry)>)
    ensures forall p :: p in ModifiedOf(om, nm) ==>
      && (p.url, p.newEntry) in nm && Get(om, p.url) == Some(p.oldEntry)
      && p.changes == Changes(p.oldEntry, p.newEntry) && p.changes != []
  {
    if nm != [] {
      var q := nm[..|nm| - 1];
      ModifiedOfPairs(om, q);
      forall p | p in ModifiedOf(om, nm)
        ensures && (p.url, p.newEntry) in nm && Get(om, p.url) == Some(p.oldEntry)
          && p.changes == Changes(p.oldEntry, p.newEntry) && p.changes != []
      {
        if p in ModifiedOf(om, q) {
          assert (p.url, p.newEntry) in q;
        } else {
          assert nm[|nm| - 1] == (p.url, p.newEntry);
        }
      }
    }
  }

  /** Each entry `UnchangedOf` reports is the new map's entry for a key the old map holds with the same fields. */
  lemma {:induction false} UnchangedOfEntries(om: seq<(string, Entry)>, nm: seq<(string, Entry)>)
    requires forall i :: 0 <= i < |nm| ==> nm[i].1.loc == nm[i].0
    ensures forall u :: u in UnchangedOf(om, nm) ==>
      (u.loc, u) in nm && Get(om, u.loc).Some? && Changes(Get(om, u.loc).value, u) == []
  {
    if nm != [] {
      var q := nm[..|nm| - 1];
      UnchangedOfEntries(om, q);
      forall u | u in UnchangedOf(om, nm)
        ensures (u.loc, u) in nm && Get(om, u.loc).Some? && Changes(Get(om, u.loc).value, u) == []
      {
        if u in UnchangedOf(om, q) {
          assert (u.loc, u) in q;
        } else {
          assert nm[|nm| - 1] == (u.loc, u);
        }
      }
    }
  }

  /** A URL of the list belongs to one of its pairs. */
  lemma {:induction false} UrlsMember(ms: seq<ModifiedPair>, k: string)
    requires k in Urls(ms)
    ensures exists p :: p in ms && p.url == k
  {
    var q := ms[..|ms| - 1];
    if k in Urls(q) {
      UrlsMember(q, k);
      var p :| p in q && p.url == k;
      assert p in ms;
    } else {
      assert ms[|ms| - 1].url == k;
    }
  }

  /** A `loc` of the list belongs to one of its entries. */
  lemma {:induction false} LocsMember(es: seq<Entry>, k: string)
    requires k in Locs(es)
    ensures exists e :: e in es && e.loc == k
  {
    var q := es[..|es| - 1];
    if k in Locs(q) {
      LocsMember(q, k);
      var e :| e in q && e.loc == k;
      assert e in es;
    } else {
      assert es[|es| - 1].loc == k;
    }
  }

  /** Under distinct keys, a pair of the map is what `Get` returns for its key. */
  lemma PairGet(m: seq<(string, Entry)>, k: string, v: Entry)
    requires Distinct(Keys(m)) && (k, v) in m
    ensures Get(m, k) == Some(v)
  {
    var i :| 0 <= i < |m| && m[i] == (k, v);
    GetAt(m, i);
  }

  /** The value a map keyed by `loc` holds under a key has that `loc`. */
  lemma KeyedGet(m: seq<(string, Entry)>, k: string)
    requires forall i :: 0 <= i < |m| ==> m[i].1.loc == m[i].0
    requires Get(m, k).Some?
    ensures Get(m, k).value.loc == k
  {
    var i :| 0 <= i < |m| && m[i] == (k, Get(m, k).value);
  }

  /**
   * Every modified pair holds the last old and the last new entry for its
   * URL, both with that `loc`, and exactly their one to three differing
   * fields.
   */
  lemma ModifiedPairs(oldEntries: seq<Entry>, newEntries: seq<Entry>)
    ensures forall p :: p in DiffOf(oldEntries, newEntries).modified ==>
      && p.oldEntry.loc == p.url && p.newEntry.loc == p.url
      && Get(Index(oldEntries), p.url) == Some(p.oldEntry)
      && Get(Index(newEntries), p.url) == Some(p.newEntry)
      && p.changes == Changes(p.oldEntry, p.newEntry)
      && 1 <= |p.changes| <= 3
  {
    var om, nm := Index(oldEntries), Index(newEntries);
    ModifiedOfPairs(om, nm);
    forall p | p in ModifiedOf(om, nm)
      ensures && p.oldEntry.loc == p.url && p.newEntry.loc == p.url
        && Get(nm, p.url) == Some(p.newEntry) && 1 <= |p.changes| <= 3
    {
      var i :| 0 <= i < |nm| && nm[i] == (p.url, p.newEntry);
      GetAt(nm, i);
      KeyedGet(om, p.url);
      ChangesExact(p.oldEntry, p.newEntry);
    }
  }

  /** `j` is the last position of its `loc` in `es`. */
  predicate LastOfLoc(es: seq<Entry>, j: nat) {
    j < |es| && forall k :: j < k < |es| ==> es[k].loc != es[j].loc
  }

  /**
   * A `loc` on both sides is reported modified iff the last old and the last
   * new entry carrying it differ in a compared field, and unchanged iff they
   * do not.
   */
  lemma ModifiedIffChanged(oldEntries: seq<Entry>, newEntries: seq<Entry>, i: nat, j: nat)
    requires LastOfLoc(oldEntries, i) && LastOfLoc(newEntries, j)
    requires oldEntries[i].loc == newEntries[j].loc
    ensures var d := DiffOf(oldEntries, newEntries);
      && (newEntries[j].loc in Urls(d.modified) <==> Changes(oldEntries[i], newEntries[j]) != [])
      && (newEntries[j].loc in Locs(d.unchangedEntries) <==> Changes(oldEntries[i], newEntries[j]) == [])
  {
    var d := DiffOf(oldEntries, newEntries);
    var l := newEntries[j].loc;
    IndexKeepsLast(oldEntries, i);
    IndexKeepsLast(newEntries, j);
    SharedLocCovered(oldEntries, newEntries, l);
    if l in Urls(d.modified) {
      ModifiedAt(oldEntries, newEntries, l);
    } else {
      UnchangedAt(oldEntries, newEntries, l);
    }
  }

  /** A `loc` of both sides is modified or unchanged, not both. */
  lemma SharedLocCovered(oldEntries: seq<Entry>, newEntries: seq<Entry>, l: string)
    requires Get(Index(oldEntries), l).Some? && Get(Index(newEntries), l).Some?
    ensures var d := DiffOf(oldEntries, newEntries);
      (l in Urls(d.modified)) != (l in Locs(d.unchangedEntries))
  {
    IndexKeys(oldEntries);
    IndexKeys(newEntries);
    KeySetIsKeys(Index(oldEntries), l);
    KeySetIsKeys(Index(newEntries), l);
    DiffPartition(oldEntries, newEntries);
  }

  /** A modified `loc`'s last old and last new entries differ. */
  lemma ModifiedAt(oldEntries: seq<Entry>, newEntries: seq<Entry>, l: string)
    requires l in Urls(DiffOf(oldEntries, newEntries).modified)
    requires Get(Index(oldEntries), l).Some? && Get(Index(newEntries), l).Some?
    ensures Changes(Get(Index(oldEntries), l).value, Get(Index(newEntries), l).value) != []
  {
    UrlsMember(DiffOf(oldEntries, newEntries).modified, l);
    ModifiedPairs(oldEntries, newEntries);
  }

  /** An unchanged `loc`'s last old and last new entries agree. */
  lemma UnchangedAt(oldEntries: seq<Entry>, newEntries: seq<Entry>, l: string)
    requires l in Locs(DiffOf(oldEntries, newEntries).unchangedEntries)
    requires Get(Index(oldEntries), l).Some? && Get(Index(newEntries), l).Some?
    ensures Changes(Get(Index(oldEntries), l).value, Get(Index(newEntries), l).value) == []
  {
    var om, nm := Index(oldEntries), Index(newEntries);
    var us := UnchangedOf(om, nm);
    assert us == DiffOf(oldEntries, newEntries).unchangedEntries;
    LocsMember(us, l);
    var u :| u in us && u.loc == l;
    UnchangedOfEntries(om, nm);
    PairGet(nm, l, u);
  }

  lemma {:induction false} OnlyInSelf(m: seq<(string, Entry)>)
    ensures OnlyIn(m, m) == []
  {
    if m != [] {
      var p := m[..|m| - 1];
      assert Keys(m) == Keys(p) + [m[|m| - 1].0];
      OnlyInSelfPrefix(p, m);
    }
  }

  lemma {:induction false} OnlyInSelfPrefix(p: seq<(string, Entry)>, m: seq<(string, Entry)>)
    requires forall k :: k in Keys(p) ==> k in Keys(m)
    ensures OnlyIn(p, m) == []
  {
    if p != [] {
      var q := p[..|p| - 1];
      assert Keys(p) == Keys(q) + [p[|p| - 1].0];
      OnlyInSelfPrefix(q, m);
    }
  }

  lemma {:induction false} NoneModifiedWithSelf(m: seq<(string, Entry)>, nm: seq<(string, Entry)>)
    requires forall i :: 0 <= i < |nm| ==> Get(m, nm[i].0) == Some(nm[i].1)
    ensures ModifiedOf(m, nm) == []
    ensures |UnchangedOf(m, nm)| == |nm|
  {
    if nm != [] {
      var p := nm[..|nm| - 1];
      NoneModifiedWithSelf(m, p);
      var (k, v) := nm[|nm| - 1];
      assert Changes(v, v) == [];
    }
  }

  /** `compare(X, X)`: nothing added, removed or modified; one unchanged entry per distinct `loc`. */
  lemma CompareSelf(es: seq<Entry>)
    ensures var d := DiffOf(es, es);
      d.added == [] && d.removed == [] && d.modified == [] && |d.unchangedEntries| == |Locs(es)|
  {
    var m := Index(es);
    OnlyInSelf(m);
    forall i | 0 <= i < |m|
      ensures Get(m, m[i].0) == Some(m[i].1)
    {
      var j := IndexOf(m, m[i].0);
      assert Keys(m)[j] == Keys(m)[i];
    }
    NoneModifiedWithSelf(m, m);
    IndexKeys(es);
    KeySetSize(m);
  }

  // ---------------------------------------------------------------------------
  // The Markdown report

  /** The heading, the timestamp line (passed in) and the summary table. */
  function Summary(d: Diff, generated: string): string {
    "# Sitemap Comparison Report\n\n"
    + "Generated: " + generated + "\n\n"
    + "## Summary\n\n"
    + "| Metric | Count |\n|--------|-------|\n"
    + "| Added | " + NatToString(|d.added|) + " |\n"
    + "| Removed | " + NatToString(|d.removed|) + " |\n"
    + "| Modified | " + NatToString(|d.modified|) + " |\n"
    + "| Unchanged | " + NatToString(|d.unchangedEntries|) + " |\n\n"
  }

  /** A section heading line followed by a blank line. */
  function Heading(title: string): string {
    "## " + title + "\n\n"
  }

  /** The `- <loc>` line of one entry. */
  function BulletLine(e: Entry): string {
    "- " + e.loc + "\n"
  }

  /** The line of one field change: name, old value, arrow, new value. */
  function ChangeLine(c: FieldChange): string {
    "- **" + FieldName(c.field) + "**: `" + c.from + "` \U{2192} `" + c.to + "`\n"
  }

  /** The `### <url>` line heading the block of one modified pair. */
  function PairHead(m: ModifiedPair): string {
    "### " + m.url + "\n"
  }

  /** One `- <loc>` line per entry. */
  function Bullets(es: seq<Entry>): string {
    if es == [] then "" else Bullets(es[..|es| - 1]) + BulletLine(es[|es| - 1])
  }

  /** One line per field change. */
  function ChangeLines(cs: seq<FieldChange>): string {
    if cs == [] then "" else ChangeLines(cs[..|cs| - 1]) + ChangeLine(cs[|cs| - 1])
  }

  /** The block of one modified pair: its heading, its change lines, a blank line. */
  function PairBlock(m: ModifiedPair): string {
    PairHead(m) + ChangeLines(m.changes) + "\n"
  }

  /** One block per modified pair. */
  function PairBlocks(ms: seq<ModifiedPair>): string {
    if ms == [] then "" else PairBlocks(ms[..|ms| - 1]) + PairBlock(ms[|ms| - 1])
  }

  /** A list section: present iff the list is non-empty. */
  function EntrySection(title: string, es: seq<Entry>): (r: string)
    ensures r == "" <==> es == []
    ensures es != [] ==> StartsWith(r, Heading(title))
  {
    if es == [] then "" else Heading(title) + Bullets(es) + "\n"
  }

  function ModifiedSection(ms: seq<ModifiedPair>): (r: string)
    ensures r == "" <==> ms == []
    ensures ms != [] ==> StartsWith(r, Heading("Modified URLs"))
  {
    if ms == [] then "" else Heading("Modified URLs") + PairBlocks(ms)
  }

  /** The whole report; unchanged entries appear only as a count. */
  function Report(d: Diff, generated: string): string {
    Summary(d, generated) + EntrySection("Added URLs", d.added) + EntrySection("Removed URLs", d.removed)
      + ModifiedSection(d.modified)
  }

  /** `generateReport`, with the non-deterministic timestamp passed in. */
  method GenerateReport(d: Diff, generated: string) returns (md: string)
    ensures md == Report(d, generated)
  {
    md := Summary(d, generated);
    md := AppendEntrySection(md, "Added URLs", d.added);
    md := AppendEntrySection(md, "Removed URLs", d.removed);
    md := AppendModifiedSection(md, d.modified);
  }

  /** An `if (list.length > 0)` block of `generateReport` for added or removed entries. */
  method AppendEntrySection(md0: string, title: string, es: seq<Entry>) returns (md: string)
    ensures md == md0 + EntrySection(title, es)
  {
    md := md0;
    if |es| > 0 {
      md := AppendBullets(md + Heading(title), es);
      md := md + "\n";
      AppendAssoc(md0, Heading(title), Bullets(es));
      AppendAssoc(md0, Heading(title) + Bullets(es), "\n");
    } else {
      assert md0 + EntrySection(title, es) == md0;
    }
  }

  /** The `if (results.modified.length > 0)` block of `generateReport`. */
  method AppendModifiedSection(md0: string, ms: seq<ModifiedPair>) returns (md: string)
    ensures md == md0 + ModifiedSection(ms)
  {
    md := md0;
    if |ms| > 0 {
      md := AppendPairBlocks(md + Heading("Modified URLs"), ms);
      AppendAssoc(md0, Heading("Modified URLs"), PairBlocks(ms));
    } else {
      assert md0 + ModifiedSection(ms) == md0;
    }
  }

  /** The `forEach(e => md += ...)` loop over a list of entries. */
  method AppendBullets(md0: string, es: seq<Entry>) returns (md: string)
    ensures md == md0 + Bullets(es)
  {
    md := md0;
    var i := 0;
    while i < |es|
      invariant 0 <= i <= |es|
      invariant md == md0 + Bullets(es[..i])
    {
      assert es[..i + 1][..i] == es[..i];
      AppendAssoc(md0, Bullets(es[..i]), BulletLine(es[i]));
      md := md + BulletLine(es[i]);
      i := i + 1;
    }
    assert es[..i] == es;
  }

  /** The inner `m.changes.forEach` loop: one line per field change. */
  method AppendChangeLines(md0: string, cs: seq<FieldChange>) returns (md: string)
    ensures md == md0 + ChangeLines(cs)
  {
    md := md0;
    var k := 0;
    while k < |cs|
      invariant 0 <= k <= |cs|
      invariant md == md0 + ChangeLines(cs[..k])
    {
      assert cs[..k + 1][..k] == cs[..k];
      AppendAssoc(md0, ChangeLines(cs[..k]), ChangeLine(cs[k]));
      md := md + ChangeLine(cs[k]);
      k := k + 1;
    }
    assert cs[..k] == cs;
  }

  /** The outer `modified.forEach` loop: one block per modified pair. */
  method AppendPairBlocks(md0: string, ms: seq<ModifiedPair>) returns (md: string)
    ensures md == md0 + PairBlocks(ms)
  {
    md := md0;
    var i := 0;
    while i < |ms|
      invariant 0 <= i <= |ms|
      invariant md == md0 + PairBlocks(ms[..i])
    {
      assert ms[..i + 1][..i] == ms[..i];
      ghost var before := md;
      md := AppendChangeLines(md + PairHead(ms[i]), ms[i].changes);
      md := md + "\n";
      AppendAssoc(before, PairHead(ms[i]), ChangeLines(ms[i].changes));
      AppendAssoc(before, PairHead(ms[i]) + ChangeLines(ms[i].changes), "\n");
      AppendAssoc(md0, PairBlocks(ms[..i]), PairBlock(ms[i]));
      i := i + 1;
    }
    assert ms[..i] == ms;
  }

  /** Every entry's `- <loc>` line is in the bullet text. */
  lemma {:induction false} BulletsListEvery(es: seq<Entry>, e: Entry)
    requires e in es
    ensures Contains(Bullets(es), BulletLine(e))
  {
    var p := es[..|es| - 1];
    var last := es[|es| - 1];
    if e == last {
      ContainsInfix(Bullets(p), BulletLine(e), "");
      assert Bullets(p) + BulletLine(e) + "" == Bullets(es);
    } else {
      assert e in p by {
        assert es == p + [last];
      }
      BulletsListEvery(p, e);
      ContainsMiddle([], Bullets(p), BulletLine(last), BulletLine(e));
      assert [] + Bullets(p) == Bullets(p);
    }
  }

  /** Every added and every removed URL is listed in the report on a `- <loc>` line. */
  lemma ReportListsAddedAndRemoved(d: Diff, generated: string, e: Entry)
    requires e in d.added || e in d.removed
    ensures Contains(Report(d, generated), BulletLine(e))
  {
    if e in d.added {
      ReportListsAdded(d, generated, e);
    } else {
      ReportListsRemoved(d, generated, e);
    }
  }

  lemma ReportListsAdded(d: Diff, generated: string, e: Entry)
    requires e in d.added
    ensures Contains(Report(d, generated), BulletLine(e))
  {
    var s := Summary(d, generated);
    var a := EntrySection("Added URLs", d.added);
    var r := EntrySection("Removed URLs", d.removed);
    var m := ModifiedSection(d.modified);
    BulletsListEvery(d.added, e);
    assert a == Heading("Added URLs") + Bullets(d.added) + "\n";
    ContainsMiddle(Heading("Added URLs"), Bullets(d.added), "\n", BulletLine(e));
    ContainsMiddle(s, a, r, BulletLine(e));
    ContainsBefore(s + a + r, m, BulletLine(e));
  }

  lemma ReportListsRemoved(d: Diff, generated: string, e: Entry)
    requires e in d.removed
    ensures Contains(Report(d, generated), BulletLine(e))
  {
    var pre := Summary(d, generated) + EntrySection("Added URLs", d.added);
    var r := EntrySection("Removed URLs", d.removed);
    var m := ModifiedSection(d.modified);
    BulletsListEvery(d.removed, e);
    assert r == Heading("Removed URLs") + Bullets(d.removed) + "\n";
    ContainsMiddle(Heading("Removed URLs"), Bullets(d.removed), "\n", BulletLine(e));
    ContainsMiddle(pre, r, m, BulletLine(e));
  }

  /** Every modified URL gets a `### <url>` heading in the report. */
  lemma ReportHeadsModified(d: Diff, generated: string, p: ModifiedPair)
    requires p in d.modified
    ensures Contains(Report(d, generated), PairHead(p))
  {
    PairBlocksHeadEvery(d.modified, p);
    var pre := Summary(d, generated) + EntrySection("Added URLs", d.added) + EntrySection("Removed URLs", d.removed);
    var m := ModifiedSection(d.modified);
    assert m == Heading("Modified URLs") + PairBlocks(d.modified);
    ContainsMiddle(Heading("Modified URLs"), PairBlocks(d.modified), [], PairHead(p));
    assert Heading("Modified URLs") + PairBlocks(d.modified) + [] == m;
    ContainsMiddle(pre, m, [], PairHead(p));
    assert pre + m + [] == Report(d, generated);
  }

  /** Every modified pair's heading is in the block text. */
  lemma {:induction false} PairBlocksHeadEvery(ms: seq<ModifiedPair>, p: ModifiedPair)
    requires p in ms
    ensures Contains(PairBlocks(ms), PairHead(p))
  {
    var q := ms[..|ms| - 1];
    var last := ms[|ms| - 1];
    if p == last {
      ContainsInfix(PairBlocks(q), PairHead(p), ChangeLines(p.changes) + "\n");
      AppendAssoc(PairHead(p), ChangeLines(p.changes), "\n");
      AppendAssoc(PairBlocks(q), PairHead(p), ChangeLines(p.changes) + "\n");
    } else {
      assert p in q by {
        assert ms == q + [last];
      }
      PairBlocksHeadEvery(q, p);
      ContainsMiddle([], PairBlocks(q), PairBlock(last), PairHead(p));
      assert [] + PairBlocks(q) == PairBlocks(q);
    }
  }
}
