/** Locale prefixes of public paths, and the site map built on them. */
module PublicLocale {
  import opened Wrappers

  datatype Locale = En | Ar

  function Prefix(locale: Locale): string {
    if locale == Ar then "/ar" else ""
  }

  predicate IsArabicPath(path: string) {
    path == "/ar" || "/ar/" <= path
  }

  function StripPrefix(path: string): string {
    if path == "/ar" then "/"
    else if "/ar/" <= path then (if path[3..] == "" then "/" else path[3..])
    else path
  }

  function LocaleOf(path: string): Locale {
    if IsArabicPath(path) then Ar else En
  }

  predicate IsForeign(href: string) {
    "http" <= href || "mailto:" <= href || "tel:" <= href || "#" <= href
  }

  function LocalizedHref(href: string, locale: Locale): string {
    if IsForeign(href) then href
    else if Prefix(locale) == "" then StripPrefix(href)
    else
      var path := StripPrefix(href);
      if path == "/" then Prefix(locale) else Prefix(locale) + path
  }

  /** The alternates object: which of en, ar and x-default are there, and their paths. */
  datatype Alternates = Alternates(en: Option<string>, ar: Option<string>, xDefault: string)

  function AllAlternates(pathname: string): Alternates {
    var path := StripPrefix(pathname);
    Alternates(Some(path), Some(if path == "/" then "/ar" else "/ar" + path), path)
  }

  function AvailableAlternates(pathname: string, locales: set<Locale>): Alternates {
    var all := AllAlternates(pathname);
    Alternates(if En in locales then all.en else None,
               if Ar in locales then all.ar else None,
               if En in locales then all.en.value else all.ar.value)
  }

  /** The record filled by assignment. */
  method FillAlternates(pathname: string, locales: set<Locale>) returns (languages: map<string, string>)
    ensures languages.Keys
            == {"x-default"} + (if En in locales then {"en"} else {}) + (if Ar in locales then {"ar"} else {})
    ensures var a := AvailableAlternates(pathname, locales);
            && languages["x-default"] == a.xDefault
            && (En in locales ==> languages["en"] == a.en.value)
            && (Ar in locales ==> languages["ar"] == a.ar.value)
  {
    KeysDiffer();
    var all := AllAlternates(pathname);
    languages := map[];
    if En in locales { languages := languages["en" := all.en.value]; }
    if Ar in locales { languages := languages["ar" := all.ar.value]; }
    languages := languages["x-default" := if En in locales then all.en.value else all.ar.value];
  }

  lemma KeysDiffer()
    ensures "en" != "ar" && "en" != "x-default" && "ar" != "x-default"
  {
    assert "en"[0] != "ar"[0];
    assert |"x-default"| == 9;
  }

  lemma RootedIsNotForeign(path: string)
    requires "/" <= path
    ensures !IsForeign(path)
  {
    assert path[0] == '/';
  }

  /** Stripping, once rooted, leaves a rooted path. */
  lemma StripKeepsRoot(path: string)
    requires "/" <= path
    ensures "/" <= StripPrefix(path)
  {
    if "/ar/" <= path { assert path[..4] == "/ar/"; }
  }

  /** Switching a rooted path to Arabic and back gives it back exactly when it is not itself an
      Arabic path. */
  lemma SwitchingBackIsIdentity(path: string)
    requires "/" <= path
    ensures LocalizedHref(LocalizedHref(path, Ar), En) == path <==> !IsArabicPath(path)
  {
    RootedIsNotForeign(path);
    StripKeepsRoot(path);
    var stripped := StripPrefix(path);
    var arabic := LocalizedHref(path, Ar);
    RootedIsNotForeign(arabic) by {
      assert "/ar"[..1] == "/";
      if stripped != "/" { assert arabic == "/ar" + stripped; }
    }
    if stripped != "/" {
      assert arabic == "/ar" + stripped && arabic[3..] == stripped;
      assert arabic[..4] == "/ar/";
    }
    assert StripPrefix(arabic) == stripped;
    if IsArabicPath(path) && path != "/ar" {
      assert |stripped| < |path|;
    }
  }

  /** Switching an Arabic path to English and back gives it back exactly when it has one prefix and is
      spelled without a slash after a bare one. */
  lemma SwitchingFromArabicAndBack(path: string)
    requires IsArabicPath(path)
    ensures LocalizedHref(LocalizedHref(path, En), Ar) == path
            <==> path != "/ar/" && !IsArabicPath(StripPrefix(path))
  {
    assert path[..3] == "/ar" && path[0] == '/';
    RootedIsNotForeign(path);
    StripKeepsRoot(path);
    var stripped := StripPrefix(path);
    RootedIsNotForeign(stripped);
    if path != "/ar" {
      assert path == "/ar" + path[3..];
      assert path[3..] == "/" ==> path == "/ar/";
      if IsArabicPath(stripped) { assert |StripPrefix(stripped)| < |stripped|; }
    }
  }

  /** Localisation is injective in path and locale together on rooted paths without a prefix. */
  lemma LocalizationIsInjective(p: string, l: Locale, q: string, m: Locale)
    requires "/" <= p && "/" <= q && !IsArabicPath(p) && !IsArabicPath(q)
    requires LocalizedHref(p, l) == LocalizedHref(q, m)
    ensures p == q && l == m
  {
    LocaleIsReadBack(p, l);
    LocaleIsReadBack(q, m);
    SwitchingBackIsIdentity(p);
    SwitchingBackIsIdentity(q);
    RootedIsNotForeign(p);
    RootedIsNotForeign(q);
  }

  /** The locale of a localised path is the one asked for. */
  lemma LocaleIsReadBack(path: string, locale: Locale)
    requires "/" <= path && !IsArabicPath(path)
    ensures LocaleOf(LocalizedHref(path, locale)) == locale
  {
    RootedIsNotForeign(path);
    if locale == Ar && path != "/" {
      assert ("/ar" + path)[..4] == "/ar/";
    }
  }

  lemma BeginsWith(prefix: string, rest: string)
    ensures prefix <= prefix + rest
  {
  }

  /** Links that leave the site or stay on the page are not localised. */
  lemma ForeignLinksStay(rest: string, locale: Locale)
    ensures LocalizedHref("http" + rest, locale) == "http" + rest
    ensures LocalizedHref("mailto:" + rest, locale) == "mailto:" + rest
    ensures LocalizedHref("tel:" + rest, locale) == "tel:" + rest
    ensures LocalizedHref("#" + rest, locale) == "#" + rest
  {
    BeginsWith("http", rest);
    BeginsWith("mailto:", rest);
    BeginsWith("tel:", rest);
    BeginsWith("#", rest);
  }

  /** A rooted path in English loses its Arabic prefix if it has one; in Arabic it has exactly one more than
      its English form, which for the home page stands alone. */
  lemma LocalizedExactly(path: string)
    requires "/" <= path
    ensures LocalizedHref(path, En)
            == if path == "/ar" then "/" else if |path| > 3 && path[..4] == "/ar/" then path[3..] else path
    ensures LocalizedHref(path, Ar) == if LocalizedHref(path, En) == "/" then "/ar" else "/ar" + LocalizedHref(path, En)
  {
    RootedIsNotForeign(path);
  }

  /** The services page, both ways. */
  lemma ServicesPage()
    ensures LocalizedHref("/services", Ar) == "/ar/services" && LocalizedHref("/ar/services", En) == "/services"
    ensures LocalizedHref("/", Ar) == "/ar" && LocalizedHref("/ar", En) == "/"
  {
    LocalizedExactly("/services");
    LocalizedExactly("/ar/services");
    LocalizedExactly("/");
    LocalizedExactly("/ar");
    assert "/services"[1] == 's' && "/ar" + "/services" == "/ar/services";
    assert "/ar/services"[..4] == "/ar/" && "/ar/services"[3..] == "/services";
  }

  /** The alternates of a path are its localisations. */
  lemma AlternatesAreLocalizations(path: string, locales: set<Locale>)
    requires "/" <= path && !IsArabicPath(path)
    ensures var a := AvailableAlternates(path, locales);
            && a.en == (if En in locales then Some(LocalizedHref(path, En)) else None)
            && a.ar == (if Ar in locales then Some(LocalizedHref(path, Ar)) else None)
            && a.xDefault == LocalizedHref(path, if En in locales then En else Ar)
  {
    RootedIsNotForeign(path);
  }
}
