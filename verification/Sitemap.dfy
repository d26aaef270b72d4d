/** The site map: paths gathered into a map of locale sets, then one entry per path and locale. */
module Sitemap {
  import opened Wrappers
  import opened PublicLocale

  datatype Addition = Addition(path: string, locale: Locale)
  datatype Entry = Entry(url: string, alternates: Alternates)

  /** A JavaScript Map from paths to Sets of locales: both remember insertion order. */
  datatype PathLocales = PathLocales(path: string, locales: seq<Locale>)

  function SetAdd(locales: seq<Locale>, locale: Locale): seq<Locale> {
    if locale in locales then locales else locales + [locale]
  }

  function Add(paths: seq<PathLocales>, a: Addition): seq<PathLocales> {
    if paths == [] then [PathLocales(a.path, [a.locale])]
    else if paths[0].path == a.path then [PathLocales(a.path, SetAdd(paths[0].locales, a.locale))] + paths[1..]
    else [paths[0]] + Add(paths[1..], a)
  }

  function AddAll(paths: seq<PathLocales>, additions: seq<Addition>): seq<PathLocales>
    decreases |additions|
  {
    if additions == [] then paths else AddAll(Add(paths, additions[0]), additions[1..])
  }

  function ToSet(locales: seq<Locale>): set<Locale> {
    set l | l in locales
  }

  function EntryFor(path: string, locale: Locale, available: seq<Locale>): Entry {
    Entry(LocalizedHref(path, locale), AvailableAlternates(path, ToSet(available)))
  }

  function EntriesOf(p: PathLocales): seq<Entry> {
    seq(|p.locales|, i requires 0 <= i < |p.locales| => EntryFor(p.path, p.locales[i], p.locales))
  }

  function Entries(paths: seq<PathLocales>): seq<Entry> {
    if paths == [] then [] else EntriesOf(paths[0]) + Entries(paths[1..])
  }

  /** Resolution of a path against the site's origin, as a URL's text. */
  type Resolver = string -> string

  function ResolveEntry(resolve: Resolver, e: Entry): Entry {
    var Alternates(en, ar, xDefault) := e.alternates;
    Entry(resolve(e.url),
          Alternates(if en.Some? then Some(resolve(en.value)) else None,
                     if ar.Some? then Some(resolve(ar.value)) else None,
                     resolve(xDefault)))
  }

  function Resolved(resolve: Resolver, entries: seq<Entry>): seq<Entry> {
    seq(|entries|, i requires 0 <= i < |entries| => ResolveEntry(resolve, entries[i]))
  }

  // ---------------------------------------------------------------- the sources

  const STATIC_PATHS: seq<string> :=
    ["/", "/services", "/our-firm", "/industries", "/articles", "/team", "/contact", "/book-consultation", "/privacy",
     "/terms", "/how-can-we-help", "/corporate-services", "/corporate-plans", "/innovation", "/legal-intelligence",
     "/careers", "/business-ai"]

  /** The slugs of one locale's content. */
  datatype Content = Content(services: seq<string>, knowledge: seq<string>, lawyers: seq<string>, articles: seq<string>)

  function Additions(prefix: string, slugs: seq<string>, locale: Locale): seq<Addition> {
    seq(|slugs|, i requires 0 <= i < |slugs| => Addition(prefix + slugs[i], locale))
  }

  function StaticAdditions(paths: seq<string>): seq<Addition> {
    if paths == [] then [] else [Addition(paths[0], En), Addition(paths[0], Ar)] + StaticAdditions(paths[1..])
  }

  function LocaleAdditions(content: Content, locale: Locale): seq<Addition> {
    Additions("/services/", content.services, locale)
    + Additions("/legal-intelligence/", content.knowledge, locale)
    + Additions("/team/", content.lawyers, locale)
  }

  function SiteAdditions(en: Content, ar: Content): seq<Addition> {
    StaticAdditions(STATIC_PATHS)
    + LocaleAdditions(en, En) + LocaleAdditions(ar, Ar)
    + Additions("/articles/", en.articles, En) + Additions("/articles/", ar.articles, Ar)
  }

  /** What an addition does once the search has stopped at `i`. */
  lemma {:induction false} AddIs(paths: seq<PathLocales>, a: Addition, i: nat)
    requires i <= |paths| && (forall k :: 0 <= k < i ==> paths[k].path != a.path)
    requires i < |paths| ==> paths[i].path == a.path
    ensures Add(paths, a) == if i == |paths| then paths + [PathLocales(a.path, [a.locale])]
                             else paths[i := PathLocales(a.path, SetAdd(paths[i].locales, a.locale))]
  {
    hide SetAdd;
    if i == 0 {
    } else {
      AddIs(paths[1..], a, i - 1);
    }
  }

  /** The keys are in the map and all of it, once each. */
  predicate Orders(order: seq<string>, entries: map<string, seq<Locale>>) {
    && (forall i :: 0 <= i < |order| ==> order[i] in entries)
    && (forall path :: path in entries ==> path in order)
    && (forall i, j :: 0 <= i < j < |order| ==> order[i] != order[j])
  }

  /** The map's entries in the order of its keys. */
  function InOrder(order: seq<string>, entries: map<string, seq<Locale>>): seq<PathLocales>
    requires Orders(order, entries)
  {
    seq(|order|, i requires 0 <= i < |order| => PathLocales(order[i], entries[order[i]]))
  }

  lemma SetOld(order: seq<string>, entries: map<string, seq<Locale>>, at: nat, locales: seq<Locale>)
    requires Orders(order, entries) && at < |order|
    ensures Orders(order, entries[order[at] := locales])
    ensures InOrder(order, entries[order[at] := locales])
            == InOrder(order, entries)[at := PathLocales(order[at], locales)]
  {
  }

  lemma SetNew(order: seq<string>, entries: map<string, seq<Locale>>, path: string, locales: seq<Locale>)
    requires Orders(order, entries) && path !in entries
    ensures Orders(order + [path], entries[path := locales])
    ensures InOrder(order + [path], entries[path := locales])
            == InOrder(order, entries) + [PathLocales(path, locales)]
  {
    assert forall other :: other in order ==> other in order + [path];
    assert (order + [path])[|order|] == path;
  }

  /** The accumulator, mutated by every addition: a Map is its keys in insertion order and the value
      of each. */
  class PathMap {
    var order: seq<string>
    var entries: map<string, seq<Locale>>

    predicate Valid()
      reads this
    {
      Orders(order, entries)
    }

    /** The values in insertion order. */
    function Values(): seq<PathLocales>
      requires Valid()
      reads this
    {
      InOrder(order, entries)
    }

    constructor ()
      ensures Valid() && Values() == []
    {
      order, entries := [], map[];
    }

    method AddPath(path: string, locale: Locale)
      requires Valid()
      modifies this
      ensures Valid() && Values() == Add(old(Values()), Addition(path, locale))
    {
      hide Add, SetAdd, InOrder, Orders;
      var entry := if path in entries then entries[path] else [];
      ghost var at := |order|;
      if path in entries {
        at := PlaceOf(order, entries, path);
        SetOld(order, entries, at, SetAdd(entry, locale));
      } else {
        SetNew(order, entries, path, SetAdd(entry, locale));
        AddToEmpty(locale);
        order := order + [path];
      }
      AddAtPlace(old(order), entries, path, locale, at);
      entries := entries[path := SetAdd(entry, locale)];
    }

    method AddSlugs(prefix: string, slugs: seq<string>, locale: Locale)
      requires Valid()
      modifies this
      ensures Valid() && Values() == AddAll(old(Values()), Additions(prefix, slugs, locale))
    {
      hide Add;
      var additions := Additions(prefix, slugs, locale);
      for i := 0 to |slugs|
        invariant Valid() && AddAll(old(Values()), additions) == AddAll(Values(), additions[i..])
      {
        assert additions[i..][0] == Addition(prefix + slugs[i], locale) && additions[i..][1..] == additions[i + 1..];
        AddPath(prefix + slugs[i], locale);
      }
      assert additions[|slugs|..] == [];
    }

    method AddStatic(statics: seq<string>)
      requires Valid()
      modifies this
      ensures Valid() && Values() == AddAll(old(Values()), StaticAdditions(statics))
    {
      hide Add;
      for i := 0 to |statics|
        invariant Valid()
        invariant AddAll(old(Values()), StaticAdditions(statics)) == AddAll(Values(), StaticAdditions(statics[i..]))
      {
        AddBoth(Values(), statics[i..]);
        assert statics[i..][1..] == statics[i + 1..];
        AddPath(statics[i], En);
        AddPath(statics[i], Ar);
      }
      assert statics[|statics|..] == [];
    }
  }

  lemma PlaceOf(order: seq<string>, entries: map<string, seq<Locale>>, path: string) returns (at: nat)
    requires Orders(order, entries) && path in entries
    ensures at < |order| && order[at] == path
  {
    at :| at < |order| && order[at] == path;
  }

  /** What an addition does to the entries in order. */
  lemma AddAtPlace(order: seq<string>, entries: map<string, seq<Locale>>, path: string, locale: Locale, at: nat)
    requires Orders(order, entries) && at <= |order|
    requires if at == |order| then path !in entries else order[at] == path
    ensures Add(InOrder(order, entries), Addition(path, locale))
            == if at == |order| then InOrder(order, entries) + [PathLocales(path, [locale])]
               else InOrder(order, entries)[at := PathLocales(path, SetAdd(entries[path], locale))]
  {
    hide Add, SetAdd;
    AddIs(InOrder(order, entries), Addition(path, locale), at);
  }

  lemma AddToEmpty(locale: Locale)
    ensures SetAdd([], locale) == [locale]
  {
  }

  lemma AddBoth(paths: seq<PathLocales>, statics: seq<string>)
    requires statics != []
    ensures AddAll(paths, StaticAdditions(statics))
            == AddAll(Add(Add(paths, Addition(statics[0], En)), Addition(statics[0], Ar)),
                      StaticAdditions(statics[1..]))
  {
    hide Add;
    var rest := StaticAdditions(statics[1..]);
    var both := [Addition(statics[0], En), Addition(statics[0], Ar)] + rest;
    assert both[1..] == [Addition(statics[0], Ar)] + rest && both[1..][1..] == rest;
  }

  function SiteMap(resolve: Resolver, en: Content, ar: Content): seq<Entry> {
    Resolved(resolve, Entries(AddAll([], SiteAdditions(en, ar))))
  }

  method BuildSitemap(resolve: Resolver, en: Content, ar: Content) returns (entries: seq<Entry>)
    ensures entries == SiteMap(resolve, en, ar)
  {
    hide Resolved, Add, Additions, StaticAdditions, AddAll, Entries;
    var map_ := new PathMap();
    map_.AddStatic(STATIC_PATHS);
    map_.AddSlugs("/services/", en.services, En);
    map_.AddSlugs("/legal-intelligence/", en.knowledge, En);
    map_.AddSlugs("/team/", en.lawyers, En);
    map_.AddSlugs("/services/", ar.services, Ar);
    map_.AddSlugs("/legal-intelligence/", ar.knowledge, Ar);
    map_.AddSlugs("/team/", ar.lawyers, Ar);
    map_.AddSlugs("/articles/", en.articles, En);
    map_.AddSlugs("/articles/", ar.articles, Ar);
    AddedInOrder(en, ar);
    entries := Resolved(resolve, Entries(map_.Values()));
  }

  lemma {:induction false} AddAllSplits(paths: seq<PathLocales>, a: seq<Addition>, b: seq<Addition>)
    ensures AddAll(paths, a + b) == AddAll(AddAll(paths, a), b)
    decreases |a|
  {
    hide Add;
    if a == [] {
      assert a + b == b;
    } else {
      AddAllSplits(Add(paths, a[0]), a[1..], b);
      assert (a + b)[1..] == a[1..] + b;
    }
  }

  lemma AddedInOrder(en: Content, ar: Content)
    ensures AddAll([], SiteAdditions(en, ar))
            == AddAll(AddAll(AddLocale(AddLocale(AddAll([], StaticAdditions(STATIC_PATHS)), en, En), ar, Ar),
                             Additions("/articles/", en.articles, En)), Additions("/articles/", ar.articles, Ar))
  {
    hide AddAll, Additions, StaticAdditions;
    var s := StaticAdditions(STATIC_PATHS);
    var e, a := LocaleAdditions(en, En), LocaleAdditions(ar, Ar);
    var x, y := Additions("/articles/", en.articles, En), Additions("/articles/", ar.articles, Ar);
    AddAllSplits([], s + e + a + x, y);
    AddAllSplits([], s + e + a, x);
    AddAllSplits([], s + e, a);
    AddAllSplits([], s, e);
    LocaleSplits(AddAll([], s), en, En);
    LocaleSplits(AddLocale(AddAll([], s), en, En), ar, Ar);
  }

  function AddLocale(paths: seq<PathLocales>, content: Content, locale: Locale): seq<PathLocales> {
    AddAll(AddAll(AddAll(paths, Additions("/services/", content.services, locale)),
                  Additions("/legal-intelligence/", content.knowledge, locale)),
           Additions("/team/", content.lawyers, locale))
  }

  lemma LocaleSplits(paths: seq<PathLocales>, content: Content, locale: Locale)
    ensures AddAll(paths, LocaleAdditions(content, locale)) == AddLocale(paths, content, locale)
  {
    hide AddAll, Additions;
    var a := Additions("/services/", content.services, locale);
    var b := Additions("/legal-intelligence/", content.knowledge, locale);
    AddAllSplits(paths, a + b, Additions("/team/", content.lawyers, locale));
    AddAllSplits(paths, a, b);
  }

  // ---------------------------------------------------------------- what is in the map

  /** Each path once, each with each of its locales once. */
  ghost predicate Tidy(paths: seq<PathLocales>) {
    && (forall i, j :: 0 <= i < j < |paths| ==> paths[i].path != paths[j].path)
    && (forall i :: 0 <= i < |paths| ==> Distinct(paths[i].locales))
  }

  ghost predicate Distinct(locales: seq<Locale>) {
    forall i, j :: 0 <= i < j < |locales| ==> locales[i] != locales[j]
  }

  ghost predicate Has(paths: seq<PathLocales>, a: Addition) {
    exists i :: 0 <= i < |paths| && paths[i].path == a.path && a.locale in paths[i].locales
  }

  lemma {:induction false} AddMeans(paths: seq<PathLocales>, a: Addition)
    requires Tidy(paths)
    ensures Tidy(Add(paths, a))
    ensures forall p :: p in Add(paths, a) ==> p.path == a.path || p in paths
    ensures forall b :: Has(Add(paths, a), b) <==> b == a || Has(paths, b)
  {
    var added := Add(paths, a);
    if paths == [] {
      assert added[0] == PathLocales(a.path, [a.locale]);
    } else if paths[0].path == a.path {
      forall b ensures Has(added, b) <==> b == a || Has(paths, b) {
        HasSplits(added, b);
        HasSplits(paths, b);
        assert added[1..] == paths[1..];
      }
    } else {
      AddMeans(paths[1..], a);
      forall b ensures Has(added, b) <==> b == a || Has(paths, b) {
        HasSplits(added, b);
        HasSplits(paths, b);
        assert added[1..] == Add(paths[1..], a);
      }
      var rest := Add(paths[1..], a);
      forall j | 0 <= j < |rest| ensures rest[j].path != paths[0].path { assert rest[j] in rest; }
    }
  }

  lemma HasSplits(paths: seq<PathLocales>, b: Addition)
    requires paths != []
    ensures Has(paths, b) <==> (paths[0].path == b.path && b.locale in paths[0].locales) || Has(paths[1..], b)
  {
    if Has(paths[1..], b) {
      var j :| 0 <= j < |paths[1..]| && paths[1..][j].path == b.path && b.locale in paths[1..][j].locales;
      assert paths[j + 1].path == b.path && b.locale in paths[j + 1].locales;
    }
    if Has(paths, b) {
      var i :| 0 <= i < |paths| && paths[i].path == b.path && b.locale in paths[i].locales;
      if i > 0 { assert paths[1..][i - 1] == paths[i]; }
    }
  }

  /** However often and in whatever order additions come, the map holds exactly them, once each. */
  lemma {:induction false} AddAllMeans(paths: seq<PathLocales>, additions: seq<Addition>)
    requires Tidy(paths)
    ensures Tidy(AddAll(paths, additions))
    ensures forall b :: Has(AddAll(paths, additions), b) <==> b in additions || Has(paths, b)
    decreases |additions|
  {
    hide Add, Has, Tidy;
    if additions == [] {
    } else {
      AddMeans(paths, additions[0]);
      AddAllMeans(Add(paths, additions[0]), additions[1..]);
    }
  }

  // ---------------------------------------------------------------- the entries

  ghost predicate Plain(path: string) {
    "/" <= path && !IsArabicPath(path)
  }

  lemma {:induction false} EntriesMean(paths: seq<PathLocales>, k: nat) returns (i: nat, j: nat)
    requires k < |Entries(paths)|
    ensures i < |paths| && j < |paths[i].locales|
    ensures Entries(paths)[k] == EntryFor(paths[i].path, paths[i].locales[j], paths[i].locales)
  {
    hide EntryFor;
    var first := EntriesOf(paths[0]);
    if k < |first| {
      i, j := 0, k;
    } else {
      var i', j' := EntriesMean(paths[1..], k - |first|);
      i, j := i' + 1, j';
    }
  }

  lemma {:induction false} EntriesHave(paths: seq<PathLocales>, i: nat, j: nat) returns (k: nat)
    requires i < |paths| && j < |paths[i].locales|
    ensures k < |Entries(paths)|
    ensures Entries(paths)[k] == EntryFor(paths[i].path, paths[i].locales[j], paths[i].locales)
  {
    if i == 0 {
      k := j;
      assert Entries(paths)[k] == EntriesOf(paths[0])[j];
    } else {
      var k' := EntriesHave(paths[1..], i - 1, j);
      k := k' + |EntriesOf(paths[0])|;
    }
  }

  /** Where each entry lies among the entries: no two share a path and a locale. */
  lemma {:induction false} EntriesDistinct(paths: seq<PathLocales>, k: nat, l: nat)
    requires Tidy(paths) && forall i :: 0 <= i < |paths| ==> Plain(paths[i].path)
    requires k < l < |Entries(paths)|
    ensures Entries(paths)[k].url != Entries(paths)[l].url
  {
    hide LocalizedHref, AvailableAlternates, IsArabicPath;
    var first, rest := EntriesOf(paths[0]), Entries(paths[1..]);
    if k >= |first| {
      EntriesDistinct(paths[1..], k - |first|, l - |first|);
    } else {
      var p, m := paths[0].path, paths[0].locales[k];
      assert Entries(paths)[k].url == LocalizedHref(p, m);
      if l < |first| {
        assert Entries(paths)[l].url == LocalizedHref(p, paths[0].locales[l]);
        if Entries(paths)[k].url == Entries(paths)[l].url { LocalizationIsInjective(p, m, p, paths[0].locales[l]); }
      } else {
        var i, j := EntriesMean(paths[1..], l - |first|);
        assert paths[1..][i] == paths[i + 1];
        if Entries(paths)[k].url == Entries(paths)[l].url {
          LocalizationIsInjective(p, m, paths[i + 1].path, paths[i + 1].locales[j]);
        }
      }
    }
  }

  lemma {:induction false} PathsPlain(additions: seq<Addition>)
    requires forall a :: a in additions ==> Plain(a.path)
    ensures forall i :: 0 <= i < |AddAll([], additions)| && AddAll([], additions)[i].locales != []
                        ==> Plain(AddAll([], additions)[i].path)
  {
    hide Plain, Tidy;
    assert Tidy([]) by { EmptyTidy(); }
    AddAllMeans([], additions);
    var paths := AddAll([], additions);
    forall i | 0 <= i < |paths| && paths[i].locales != [] ensures Plain(paths[i].path) {
      assert paths[i].locales[0] in paths[i].locales;
      assert Has(paths, Addition(paths[i].path, paths[i].locales[0]));
    }
  }

  lemma EmptyTidy()
    ensures Tidy([])
  {
  }

  lemma {:induction false} NoEmptySets(paths: seq<PathLocales>, additions: seq<Addition>)
    requires forall p :: p in paths ==> p.locales != []
    ensures forall p :: p in AddAll(paths, additions) ==> p.locales != []
    decreases |additions|
  {
    hide Add;
    if additions == [] {
    } else {
      AddNoEmptySet(paths, additions[0]);
      NoEmptySets(Add(paths, additions[0]), additions[1..]);
    }
  }

  lemma {:induction false} AddNoEmptySet(paths: seq<PathLocales>, a: Addition)
    requires forall p :: p in paths ==> p.locales != []
    ensures forall p :: p in Add(paths, a) ==> p.locales != []
  {
    if paths == [] || paths[0].path == a.path {
    } else {
      AddNoEmptySet(paths[1..], a);
    }
  }

  /** The entry an added path and locale must have: its localised URL, and as alternates exactly
      the localised URLs of the locales added for that path. */
  ghost predicate IsEntryOf(e: Entry, additions: seq<Addition>, a: Addition) {
    && e.url == LocalizedHref(a.path, a.locale)
    && e.alternates.en == (if Addition(a.path, En) in additions then Some(LocalizedHref(a.path, En)) else None)
    && e.alternates.ar == (if Addition(a.path, Ar) in additions then Some(LocalizedHref(a.path, Ar)) else None)
    && e.alternates.xDefault == LocalizedHref(a.path, if Addition(a.path, En) in additions then En else Ar)
  }

  /** One of the entries is the one the addition must have. */
  ghost predicate Listed(entries: seq<Entry>, additions: seq<Addition>, a: Addition) {
    exists k :: 0 <= k < |entries| && IsEntryOf(entries[k], additions, a)
  }

  /** The entry is one that some addition must have. */
  ghost predicate Wanted(e: Entry, additions: seq<Addition>) {
    exists a :: a in additions && IsEntryOf(e, additions, a)
  }

  /** One entry per path and locale added, and no other; no localised path twice. */
  ghost predicate ExactlyListed(entries: seq<Entry>, additions: seq<Addition>) {
    && (forall a :: a in additions ==> Listed(entries, additions, a))
    && (forall k :: 0 <= k < |entries| ==> Wanted(entries[k], additions))
    && (forall k, l :: 0 <= k < l < |entries| ==> entries[k].url != entries[l].url)
  }

  lemma LocalesAreAdditions(paths: seq<PathLocales>, additions: seq<Addition>, i: nat, l: Locale)
    requires paths == AddAll([], additions) && i < |paths|
    ensures l in paths[i].locales <==> Addition(paths[i].path, l) in additions
  {
    hide AddAll;
    EmptyTidy();
    AddAllMeans([], additions);
    if l in paths[i].locales {
      assert Has(paths, Addition(paths[i].path, l));
    }
    if Addition(paths[i].path, l) in additions {
      assert Has(paths, Addition(paths[i].path, l));
      var k :| 0 <= k < |paths| && paths[k].path == paths[i].path && l in paths[k].locales;
    }
  }

  lemma EntryIsEntryOf(additions: seq<Addition>, i: nat, j: nat)
    requires var paths := AddAll([], additions); i < |paths| && j < |paths[i].locales| && Plain(paths[i].path)
    ensures var p := AddAll([], additions)[i];
            && Addition(p.path, p.locales[j]) in additions
            && IsEntryOf(EntryFor(p.path, p.locales[j], p.locales), additions, Addition(p.path, p.locales[j]))
  {
    hide AddAll, LocalizedHref, AvailableAlternates;
    var paths := AddAll([], additions);
    var p := paths[i];
    LocalesAreAdditions(paths, additions, i, En);
    LocalesAreAdditions(paths, additions, i, Ar);
    LocalesAreAdditions(paths, additions, i, p.locales[j]);
    AlternatesAreLocalizations(p.path, ToSet(p.locales));
  }

  /** Before resolution the site map has exactly one entry per path and locale ever added, whatever the
      order and repetition, and all of its paths differ. */
  lemma OneEntryPerAddition(additions: seq<Addition>)
    requires forall a :: a in additions ==> Plain(a.path)
    ensures ExactlyListed(Entries(AddAll([], additions)), additions)
  {
    hide AddAll, IsEntryOf, EntryFor, Entries, Plain;
    var paths := AddAll([], additions);
    var entries := Entries(paths);
    EmptyTidy();
    AddAllMeans([], additions);
    PathsPlain(additions);
    NoEmptySets([], additions);
    forall i | 0 <= i < |paths| ensures Plain(paths[i].path) { assert paths[i] in paths; }
    forall a | a in additions ensures Listed(entries, additions, a) {
      assert Has(paths, a);
      var i :| 0 <= i < |paths| && paths[i].path == a.path && a.locale in paths[i].locales;
      var j :| 0 <= j < |paths[i].locales| && paths[i].locales[j] == a.locale;
      var k := EntriesHave(paths, i, j);
      EntryIsEntryOf(additions, i, j);
    }
    forall k | 0 <= k < |entries| ensures Wanted(entries[k], additions) {
      var i, j := EntriesMean(paths, k);
      EntryIsEntryOf(additions, i, j);
      var a := Addition(paths[i].path, paths[i].locales[j]);
      assert a in additions && IsEntryOf(entries[k], additions, a);
    }
    forall k, l | 0 <= k < l < |entries| ensures entries[k].url != entries[l].url { EntriesDistinct(paths, k, l); }
  }

  /** Some entry has this URL and the same alternates as `e`. */
  ghost predicate ListedWith(entries: seq<Entry>, e: Entry, url: string) {
    exists l :: 0 <= l < |entries| && entries[l].url == url && entries[l].alternates == e.alternates
  }

  /** Alternates are reciprocal: a language that an entry lists has its own entry, with that URL
      and the same alternates, so it lists the first one back. */
  lemma AlternatesAreReciprocal(additions: seq<Addition>, e: Entry)
    requires forall a :: a in additions ==> Plain(a.path)
    requires e in Entries(AddAll([], additions))
    ensures var entries := Entries(AddAll([], additions));
            && (e.alternates.en.Some? ==> ListedWith(entries, e, e.alternates.en.value))
            && (e.alternates.ar.Some? ==> ListedWith(entries, e, e.alternates.ar.value))
            && ListedWith(entries, e, e.alternates.xDefault)
            && (e.alternates.en == Some(e.url) || e.alternates.ar == Some(e.url))
  {
    hide AddAll, Entries, Plain, LocalizedHref, IsEntryOf, ListedWith;
    OneEntryPerAddition(additions);
    var entries := Entries(AddAll([], additions));
    var k :| 0 <= k < |entries| && entries[k] == e;
    assert Wanted(entries[k], additions);
    var a :| a in additions && IsEntryOf(e, additions, a);
    AlternatesOf(e, additions, a);
    if Addition(a.path, En) in additions { Partner(entries, additions, e, a, En); }
    if Addition(a.path, Ar) in additions { Partner(entries, additions, e, a, Ar); }
  }

  lemma Partner(entries: seq<Entry>, additions: seq<Addition>, e: Entry, a: Addition, m: Locale)
    requires ExactlyListed(entries, additions)
    requires IsEntryOf(e, additions, a) && Addition(a.path, m) in additions
    ensures ListedWith(entries, e, LocalizedHref(a.path, m))
  {
    hide LocalizedHref, IsEntryOf;
    assert Listed(entries, additions, Addition(a.path, m));
    var l :| 0 <= l < |entries| && IsEntryOf(entries[l], additions, Addition(a.path, m));
    SameAlternates(entries[l], e, additions, a, m);
  }

  lemma AlternatesOf(e: Entry, additions: seq<Addition>, a: Addition)
    requires IsEntryOf(e, additions, a) && a in additions
    ensures e.alternates.en == (if Addition(a.path, En) in additions then Some(LocalizedHref(a.path, En)) else None)
    ensures e.alternates.ar == (if Addition(a.path, Ar) in additions then Some(LocalizedHref(a.path, Ar)) else None)
    ensures e.alternates.xDefault == LocalizedHref(a.path, if Addition(a.path, En) in additions then En else Ar)
    ensures e.alternates.en == Some(e.url) || e.alternates.ar == Some(e.url)
    ensures Addition(a.path, En) in additions || Addition(a.path, Ar) in additions
  {
    hide LocalizedHref;
    if a.locale == En { assert a == Addition(a.path, En); } else { assert a == Addition(a.path, Ar); }
  }

  lemma SameAlternates(e: Entry, f: Entry, additions: seq<Addition>, a: Addition, m: Locale)
    requires IsEntryOf(e, additions, Addition(a.path, m)) && IsEntryOf(f, additions, a)
    ensures e.alternates == f.alternates && e.url == LocalizedHref(a.path, m)
  {
    hide LocalizedHref;
  }

  // ---------------------------------------------------------------- after resolution

  ghost predicate Separates(resolve: Resolver, additions: seq<Addition>) {
    forall a, b :: a in additions && b in additions
      ==> (resolve(LocalizedHref(a.path, a.locale)) == resolve(LocalizedHref(b.path, b.locale)) ==> a == b)
  }

  ghost predicate UrlsDiffer(entries: seq<Entry>) {
    forall k, l :: 0 <= k < l < |entries| ==> entries[k].url != entries[l].url
  }

  /** The final URLs differ when resolution keeps the localised paths of the additions apart. */
  lemma UrlsDifferExactly(resolve: Resolver, additions: seq<Addition>)
    requires forall a :: a in additions ==> Plain(a.path)
    ensures UrlsDiffer(Resolved(resolve, Entries(AddAll([], additions)))) <==> Separates(resolve, additions)
  {
    hide AddAll, Entries, Plain, LocalizedHref;
    OneEntryPerAddition(additions);
    var entries := Entries(AddAll([], additions));
    var resolved := Resolved(resolve, entries);
    if Separates(resolve, additions) {
      forall k, l | 0 <= k < l < |resolved| ensures resolved[k].url != resolved[l].url {
        assert Wanted(entries[k], additions) && Wanted(entries[l], additions);
        var a :| a in additions && IsEntryOf(entries[k], additions, a);
        var b :| b in additions && IsEntryOf(entries[l], additions, b);
        assert entries[k].url != entries[l].url;
      }
    }
    if UrlsDiffer(resolved) {
      forall a, b | a in additions && b in additions
                    && resolve(LocalizedHref(a.path, a.locale)) == resolve(LocalizedHref(b.path, b.locale))
        ensures a == b
      {
        assert Listed(entries, additions, a) && Listed(entries, additions, b);
        var k :| 0 <= k < |entries| && IsEntryOf(entries[k], additions, a);
        var l :| 0 <= l < |entries| && IsEntryOf(entries[l], additions, b);
        assert resolved[k].url == resolved[l].url;
        SamePlace(a, b) by { assert LocalizedHref(a.path, a.locale) == LocalizedHref(b.path, b.locale); }
      }
    }
  }

  lemma SamePlace(a: Addition, b: Addition)
    requires Plain(a.path) && Plain(b.path) && LocalizedHref(a.path, a.locale) == LocalizedHref(b.path, b.locale)
    ensures a == b
  {
    hide LocalizedHref;
    LocalizationIsInjective(a.path, a.locale, b.path, b.locale);
  }

  /** However paths are resolved, the final alternates are reciprocal too. */
  lemma ResolvedAlternatesAreReciprocal(resolve: Resolver, additions: seq<Addition>, k: nat)
    requires forall a :: a in additions ==> Plain(a.path)
    requires k < |Entries(AddAll([], additions))|
    ensures var entries := Resolved(resolve, Entries(AddAll([], additions)));
            var e := entries[k];
            && (e.alternates.en.Some? ==> ListedWith(entries, e, e.alternates.en.value))
            && (e.alternates.ar.Some? ==> ListedWith(entries, e, e.alternates.ar.value))
            && ListedWith(entries, e, e.alternates.xDefault)
            && (e.alternates.en == Some(e.url) || e.alternates.ar == Some(e.url))
  {
    hide AddAll, Entries, Plain, ListedWith;
    var entries := Entries(AddAll([], additions));
    var e := entries[k];
    AlternatesAreReciprocal(additions, e);
    if e.alternates.en.Some? { ResolvedListing(resolve, entries, k, e.alternates.en.value); }
    if e.alternates.ar.Some? { ResolvedListing(resolve, entries, k, e.alternates.ar.value); }
    ResolvedListing(resolve, entries, k, e.alternates.xDefault);
  }

  lemma ResolvedListing(resolve: Resolver, entries: seq<Entry>, k: nat, href: string)
    requires k < |entries| && ListedWith(entries, entries[k], href)
    ensures ListedWith(Resolved(resolve, entries), Resolved(resolve, entries)[k], resolve(href))
  {
    var l :| 0 <= l < |entries| && entries[l].url == href && entries[l].alternates == entries[k].alternates;
    var resolved := Resolved(resolve, entries);
    assert resolved[l].url == resolve(href) && resolved[l].alternates == resolved[k].alternates;
  }

  // ---------------------------------------------------------------- the real site map

  /** A letter or digit of a slug. */
  predicate SlugChar(c: char) {
    'a' <= c <= 'z' || '0' <= c <= '9'
  }

  /** Lowercase kebab-case: words of slug characters with single hyphens between them. */
  predicate Kebab(slug: string) {
    && slug != []
    && (forall i :: 0 <= i < |slug| ==> SlugChar(slug[i]) || slug[i] == '-')
    && slug[0] != '-' && slug[|slug| - 1] != '-'
    && (forall i :: 0 <= i < |slug| - 1 ==> slug[i] != '-' || slug[i + 1] != '-')
  }

  predicate KebabContent(content: Content) {
    forall slug :: slug in content.services + content.knowledge + content.lawyers + content.articles ==> Kebab(slug)
  }

  /** A path of slug characters, hyphens and slashes that begins with exactly one slash. */
  predicate Ordinary(path: string) {
    && path != [] && path[0] == '/' && (|path| > 1 ==> path[1] != '/')
    && forall i :: 0 <= i < |path| ==> SlugChar(path[i]) || path[i] == '-' || path[i] == '/'
  }

  /** Resolution puts the origin before an ordinary path. */
  ghost predicate Keeps(resolve: Resolver, origin: string) {
    forall path :: Ordinary(path) ==> resolve(path) == origin + path
  }

  lemma OrdinarySlugs(prefix: string, slugs: seq<string>, locale: Locale)
    requires prefix in {"/services/", "/legal-intelligence/", "/team/", "/articles/"}
    requires forall slug :: slug in slugs ==> Kebab(slug)
    ensures forall a :: a in Additions(prefix, slugs, locale) ==> Ordinary(a.path)
  {
    OrdinaryPrefix(prefix);
    forall i | 0 <= i < |slugs| ensures Ordinary(prefix + slugs[i]) {
      assert slugs[i] in slugs;
      OrdinaryJoin(prefix, slugs[i]);
    }
  }

  lemma OrdinaryPrefix(prefix: string)
    requires prefix in {"/services/", "/legal-intelligence/", "/team/", "/articles/"}
    ensures Ordinary(prefix) && |prefix| > 1
  {
  }

  lemma OrdinaryJoin(prefix: string, slug: string)
    requires Ordinary(prefix) && |prefix| > 1 && Kebab(slug)
    ensures Ordinary(prefix + slug)
  {
    assert (prefix + slug)[1] == prefix[1];
  }

  lemma OrdinaryStatics0(i: nat)
    requires i < 8
    ensures i < |STATIC_PATHS| && Ordinary(STATIC_PATHS[i])
  {
  }

  lemma OrdinaryStatics1(i: nat)
    requires 8 <= i < 13
    ensures i < |STATIC_PATHS| && Ordinary(STATIC_PATHS[i])
  {
  }

  lemma OrdinaryStatics2(i: nat)
    requires 13 <= i < |STATIC_PATHS|
    ensures Ordinary(STATIC_PATHS[i])
  {
  }

  lemma OrdinaryStatics()
    ensures forall i :: 0 <= i < |STATIC_PATHS| ==> Ordinary(STATIC_PATHS[i])
  {
    hide STATIC_PATHS, Ordinary;
    forall i | 0 <= i < |STATIC_PATHS| ensures Ordinary(STATIC_PATHS[i]) {
      if i < 8 { OrdinaryStatics0(i); } else if i < 13 { OrdinaryStatics1(i); } else { OrdinaryStatics2(i); }
    }
  }

  lemma {:induction false} StaticOrdinary(paths: seq<string>)
    requires forall i :: 0 <= i < |paths| ==> Ordinary(paths[i])
    ensures forall a :: a in StaticAdditions(paths) ==> Ordinary(a.path)
  {
    hide Ordinary;
    if paths == [] {
    } else {
      StaticOrdinary(paths[1..]);
    }
  }

  lemma SiteOrdinary(en: Content, ar: Content)
    requires KebabContent(en) && KebabContent(ar)
    ensures forall a :: a in SiteAdditions(en, ar) ==> Ordinary(a.path)
  {
    hide Ordinary, Kebab, Additions, StaticAdditions, STATIC_PATHS;
    OrdinaryStatics();
    StaticOrdinary(STATIC_PATHS);
    LocaleOrdinary(en, En);
    LocaleOrdinary(ar, Ar);
    OrdinarySlugs("/articles/", en.articles, En);
    OrdinarySlugs("/articles/", ar.articles, Ar);
  }

  lemma LocaleOrdinary(content: Content, locale: Locale)
    requires KebabContent(content)
    ensures forall a :: a in LocaleAdditions(content, locale) ==> Ordinary(a.path)
  {
    hide Ordinary, Kebab, Additions;
    OrdinarySlugs("/services/", content.services, locale);
    OrdinarySlugs("/legal-intelligence/", content.knowledge, locale);
    OrdinarySlugs("/team/", content.lawyers, locale);
  }

  lemma LocalizedOrdinary(path: string, locale: Locale)
    requires Ordinary(path) && Plain(path)
    ensures Ordinary(LocalizedHref(path, locale))
  {
    RootedIsNotForeign(path);
    if locale == Ar && path != "/" {
      var href := "/ar" + path;
      assert forall i :: 0 <= i < |href| ==> href[i] == if i < 3 then "/ar"[i] else path[i - 3];
    }
  }

  lemma KeepsSeparates(resolve: Resolver, origin: string, additions: seq<Addition>)
    requires Keeps(resolve, origin)
    requires forall a :: a in additions ==> Plain(a.path) && Ordinary(a.path)
    ensures Separates(resolve, additions)
  {
    hide Ordinary, Plain, LocalizedHref;
    forall a, b | a in additions && b in additions
                  && resolve(LocalizedHref(a.path, a.locale)) == resolve(LocalizedHref(b.path, b.locale))
      ensures a == b
    {
      var x, y := LocalizedHref(a.path, a.locale), LocalizedHref(b.path, b.locale);
      LocalizedOrdinary(a.path, a.locale);
      LocalizedOrdinary(b.path, b.locale);
      assert (origin + x)[|origin|..] == x && (origin + y)[|origin|..] == y;
      SamePlace(a, b);
    }
  }

  /** The entry whose URLs are the origin followed by `e`'s paths. */
  function AtOrigin(origin: string, e: Entry): Entry {
    ResolveEntry(path => origin + path, e)
  }

  lemma ResolvesToOrigin(resolve: Resolver, origin: string, additions: seq<Addition>, e: Entry)
    requires Keeps(resolve, origin) && Wanted(e, additions)
    requires forall a :: a in additions ==> Plain(a.path) && Ordinary(a.path)
    ensures ResolveEntry(resolve, e) == AtOrigin(origin, e)
  {
    hide Ordinary, Plain, LocalizedHref;
    var a :| a in additions && IsEntryOf(e, additions, a);
    forall l: Locale ensures resolve(LocalizedHref(a.path, l)) == origin + LocalizedHref(a.path, l) {
      LocalizedOrdinary(a.path, l);
    }
    var r, o := ResolveEntry(resolve, e), AtOrigin(origin, e);
    assert r.url == o.url && r.alternates.en == o.alternates.en && r.alternates.ar == o.alternates.ar;
    assert r.alternates.xDefault == o.alternates.xDefault;
  }

  /** The path is the page of one of the slugs. */
  predicate PageOf(prefix: string, slugs: seq<string>, path: string) {
    exists i :: 0 <= i < |slugs| && path == prefix + slugs[i]
  }

  /** What the site map is to list: each static path in both languages, and each slug of a language's
      content under its section. */
  lemma SiteAdditionsAre(en: Content, ar: Content, a: Addition)
    ensures a in SiteAdditions(en, ar)
            <==> var content := if a.locale == En then en else ar;
                 || a.path in STATIC_PATHS
                 || PageOf("/services/", content.services, a.path)
                 || PageOf("/legal-intelligence/", content.knowledge, a.path)
                 || PageOf("/team/", content.lawyers, a.path)
                 || PageOf("/articles/", content.articles, a.path)
  {
    hide STATIC_PATHS, StaticAdditions, Additions, LocaleAdditions, PageOf;
    StaticAdditionsAre(STATIC_PATHS, a);
    LocaleAdditionsAre(en, En, a);
    LocaleAdditionsAre(ar, Ar, a);
    AdditionsAre("/articles/", en.articles, En, a);
    AdditionsAre("/articles/", ar.articles, Ar, a);
    if a.locale != En { assert a == Addition(a.path, Ar); }
  }

  lemma AdditionsAre(prefix: string, slugs: seq<string>, locale: Locale, a: Addition)
    ensures a in Additions(prefix, slugs, locale) <==> a.locale == locale && PageOf(prefix, slugs, a.path)
  {
    var all := Additions(prefix, slugs, locale);
    if i :| 0 <= i < |slugs| && a.path == prefix + slugs[i] {
      if a.locale == locale { assert all[i] == a; }
    }
  }

  lemma LocaleAdditionsAre(content: Content, locale: Locale, a: Addition)
    ensures a in LocaleAdditions(content, locale)
            <==> a.locale == locale
                 && (|| PageOf("/services/", content.services, a.path)
                     || PageOf("/legal-intelligence/", content.knowledge, a.path)
                     || PageOf("/team/", content.lawyers, a.path))
  {
    hide Additions, PageOf;
    AdditionsAre("/services/", content.services, locale, a);
    AdditionsAre("/legal-intelligence/", content.knowledge, locale, a);
    AdditionsAre("/team/", content.lawyers, locale, a);
  }

  lemma {:induction false} StaticAdditionsAre(paths: seq<string>, a: Addition)
    ensures a in StaticAdditions(paths) <==> a.path in paths
  {
    if paths == [] {
    } else {
      StaticAdditionsAre(paths[1..], a);
      if a.locale == En { assert a == Addition(a.path, En); } else { assert a == Addition(a.path, Ar); }
    }
  }

  /** Every path the sources can add is plain, whatever the slugs, so before resolution the real site map
      has exactly one entry per addition.  With kebab-case slugs, resolution puts the origin before every
      path of every entry, and no URL is listed twice. */
  lemma SiteMapIsSound(resolve: Resolver, origin: string, en: Content, ar: Content)
    ensures forall a :: a in SiteAdditions(en, ar) ==> Plain(a.path)
    ensures ExactlyListed(Entries(AddAll([], SiteAdditions(en, ar))), SiteAdditions(en, ar))
    ensures Keeps(resolve, origin) && KebabContent(en) && KebabContent(ar) ==>
              && UrlsDiffer(SiteMap(resolve, en, ar))
              && var entries := Entries(AddAll([], SiteAdditions(en, ar)));
                 forall k :: 0 <= k < |entries| ==> SiteMap(resolve, en, ar)[k] == AtOrigin(origin, entries[k])
  {
    hide AddAll, Entries, Plain, Ordinary, SiteAdditions, UrlsDiffer, Separates, Keeps, KebabContent, ResolveEntry,
      AtOrigin, Listed, Wanted;
    var additions := SiteAdditions(en, ar);
    SitePlain(en, ar);
    OneEntryPerAddition(additions);
    if Keeps(resolve, origin) && KebabContent(en) && KebabContent(ar) {
      SiteOrdinary(en, ar);
      KeepsSeparates(resolve, origin, additions);
      UrlsDifferExactly(resolve, additions);
      var entries := Entries(AddAll([], additions));
      forall k | 0 <= k < |entries| ensures SiteMap(resolve, en, ar)[k] == AtOrigin(origin, entries[k]) {
        ResolvesToOrigin(resolve, origin, additions, entries[k]);
      }
    }
  }

  lemma SitePlain(en: Content, ar: Content)
    ensures forall a :: a in SiteAdditions(en, ar) ==> Plain(a.path)
  {
    hide Plain, Additions, StaticAdditions, STATIC_PATHS, LocaleAdditions, PlainStart;
    StaticPathsPlain();
    StaticPlain(STATIC_PATHS);
    LocalePlain(en, En);
    LocalePlain(ar, Ar);
    SlugsPlain("/articles/", en.articles, En);
    SlugsPlain("/articles/", ar.articles, Ar);
  }

  lemma LocalePlain(content: Content, locale: Locale)
    ensures forall a :: a in LocaleAdditions(content, locale) ==> Plain(a.path)
  {
    hide Additions, Plain;
    SlugsPlain("/services/", content.services, locale);
    SlugsPlain("/legal-intelligence/", content.knowledge, locale);
    SlugsPlain("/team/", content.lawyers, locale);
  }

  lemma SlugsPlain(prefix: string, slugs: seq<string>, locale: Locale)
    requires prefix in {"/services/", "/legal-intelligence/", "/team/", "/articles/"}
    ensures forall a :: a in Additions(prefix, slugs, locale) ==> Plain(a.path)
  {
    forall i | 0 <= i < |slugs| ensures Plain(prefix + slugs[i]) {
      var path := prefix + slugs[i];
      assert path[0] == '/' && (path[1] != 'a' || path[3] == 't');
    }
  }

  predicate PlainStart(path: string) {
    |path| >= 1 && path[0] == '/' && (|path| < 4 || path[1] != 'a' || path[3] != '/') && |path| != 3
  }

  lemma StaticPathsPlain()
    ensures forall i :: 0 <= i < |STATIC_PATHS| ==> PlainStart(STATIC_PATHS[i])
  {
  }

  lemma {:induction false} StaticPlain(paths: seq<string>)
    requires forall i :: 0 <= i < |paths| ==> PlainStart(paths[i])
    ensures forall a :: a in StaticAdditions(paths) ==> Plain(a.path)
  {
    if paths == [] {
    } else {
      StaticPlain(paths[1..]);
    }
  }
}
