/** The request middleware: paths without a locale prefix are redirected under the default locale. */
module Middleware {
  import opened Strings
  import I18n

  const SUPPORTED_LANGUAGES: seq<string> := ["en", "ru", "uz"]
  const DEFAULT_LANGUAGE: string := "en"

  /** The middleware either lets the request through or redirects it to a path. */
  datatype Action = Next | Redirect(location: string)

  /** `locale => pathname.startsWith(`/${locale}/`) || pathname === `/${locale}``. */
  predicate HasPrefix(pathname: string, locale: string) {
    StartsWith(pathname, "/" + locale + "/") || pathname == "/" + locale
  }

  /** `supportedLanguages.some(...)`. */
  predicate SomeLocale(pathname: string, locales: seq<string>) {
    locales != [] && (HasPrefix(pathname, locales[0]) || SomeLocale(pathname, locales[1..]))
  }

  predicate PathnameHasLocale(pathname: string) {
    SomeLocale(pathname, SUPPORTED_LANGUAGES)
  }

  /** `middleware`: a redirect always goes under `/en`, and never to the path it came from. */
  function Middleware(pathname: string): (a: Action)
    ensures a.Redirect? ==> |a.location| > |pathname| && |a.location| >= 3 && a.location[..3] == "/en"
  {
    if PathnameHasLocale(pathname) then Next
    else if pathname == "/" then Redirect("/" + DEFAULT_LANGUAGE)
    else Redirect("/" + DEFAULT_LANGUAGE + pathname)
  }

  /** The first segment of a path with its leading `/` removed: the characters up to the next `/`. */
  function FirstSegment(s: string): (seg: string)
    ensures |seg| <= |s| && seg == s[..|seg|]
    ensures '/' !in seg
    ensures |seg| < |s| ==> s[|seg|] == '/'
  {
    if s == [] || s[0] == '/' then [] else [s[0]] + FirstSegment(s[1..])
  }

  /** For a segment without `/`, the prefix test is a test of the first segment. */
  lemma {:induction false} HasPrefixIff(s: string, locale: string)
    requires '/' !in locale
    ensures HasPrefix("/" + s, locale) <==> FirstSegment(s) == locale
  {
    var seg := FirstSegment(s);
    var p := "/" + s;
    assert p[1..] == s;
    if FirstSegment(s) == locale {
      if |locale| < |s| {
        assert p[..|locale| + 2] == "/" + locale + "/";
      } else {
        assert s == locale;
      }
    }
    if HasPrefix(p, locale) {
      if p == "/" + locale {
        assert s == locale;
        FirstSegmentSlashFree(s);
      } else {
        assert s[..|locale| + 1] == locale + "/";
        assert s == locale + "/" + s[|locale| + 1..];
        FirstSegmentAt(locale, s[|locale| + 1..]);
      }
    }
  }

  lemma {:induction false} FirstSegmentSlashFree(s: string)
    requires '/' !in s
    ensures FirstSegment(s) == s
  {
    if s != [] {
      FirstSegmentSlashFree(s[1..]);
    }
  }

  lemma {:induction false} FirstSegmentAt(seg: string, rest: string)
    requires '/' !in seg
    ensures FirstSegment(seg + "/" + rest) == seg
  {
    if seg != [] {
      assert (seg + "/" + rest)[1..] == seg[1..] + "/" + rest;
      FirstSegmentAt(seg[1..], rest);
    }
  }

  /**
   * Locale detection is exact on the first segment: a path passes through iff
   * it starts with `/` and its first segment is `en`, `ru` or `uz`. So `/en`,
   * `/en/` and `/en/about` pass; `/english` and `/rush` do not.
   */
  lemma HasLocaleIff(pathname: string)
    ensures PathnameHasLocale(pathname) <==>
      pathname != [] && pathname[0] == '/' && FirstSegment(pathname[1..]) in SUPPORTED_LANGUAGES
  {
    SomeSupported(pathname);
    if pathname != [] && pathname[0] == '/' {
      var s := pathname[1..];
      assert pathname == "/" + s;
      HasPrefixIff(s, "en");
      HasPrefixIff(s, "ru");
      HasPrefixIff(s, "uz");
    } else {
      assert !HasPrefix(pathname, "en") && !HasPrefix(pathname, "ru") && !HasPrefix(pathname, "uz");
    }
  }

  lemma SomeSupported(pathname: string)
    ensures PathnameHasLocale(pathname) <==>
      HasPrefix(pathname, "en") || HasPrefix(pathname, "ru") || HasPrefix(pathname, "uz")
  {
    var l0 := SUPPORTED_LANGUAGES;
    var l1 := l0[1..];
    var l2 := l1[1..];
    assert l0[0] == "en" && l1 == ["ru", "uz"];
    assert l1[0] == "ru" && l2 == ["uz"];
    assert l2[0] == "uz" && l2[1..] == [];
    assert SomeLocale(pathname, l2) <==> HasPrefix(pathname, "uz");
    assert SomeLocale(pathname, l1) <==> HasPrefix(pathname, "ru") || SomeLocale(pathname, l2);
  }

  /** `/english` and `/rush` are not localized paths. */
  lemma NotALocale()
    ensures Middleware("/english") == Redirect("/en/english")
    ensures Middleware("/rush") == Redirect("/en/rush")
  {
    assert "english"[..2] == "en" && "/" + "english" == "/english" && "/en" + "/english" == "/en/english";
    NotALocaleLiteral("english", "/english", "/en/english");
    assert "rush"[..2] == "ru" && "/" + "rush" == "/rush" && "/en" + "/rush" == "/en/rush";
    NotALocaleLiteral("rush", "/rush", "/en/rush");
  }

  lemma NotALocaleLiteral(seg: string, path: string, target: string)
    requires |seg| > 2 && '/' !in seg && seg[..2] in SUPPORTED_LANGUAGES
    requires path == "/" + seg && target == "/en" + path
    ensures Middleware(path) == Redirect(target)
  {
    assert seg !in SUPPORTED_LANGUAGES;
    NotALocaleAt(seg);
  }

  lemma NotALocaleAt(seg: string)
    requires seg != [] && '/' !in seg && seg !in SUPPORTED_LANGUAGES
    ensures Middleware("/" + seg) == Redirect("/en" + ("/" + seg))
  {
    assert ("/" + seg) != "/" by { assert |"/" + seg| > 1; }
    HasLocaleIff("/" + seg);
    assert ("/" + seg)[1..] == seg;
    FirstSegmentSlashFree(seg);
  }

  /** `/` goes to `/en`; any other unlocalized path goes to `/en` followed by the path. */
  lemma RedirectTargets(pathname: string)
    ensures Middleware("/") == Redirect("/en")
    ensures !PathnameHasLocale(pathname) && pathname != "/" ==> Middleware(pathname) == Redirect("/en" + pathname)
    ensures PathnameHasLocale(pathname) ==> Middleware(pathname) == Next
  {
    HasLocaleIff("/");
  }

  /** No redirect loop: for a path starting with `/`, the redirect target passes through unchanged. */
  lemma NoRedirectLoop(pathname: string)
    requires pathname != [] && pathname[0] == '/'
    ensures Middleware(pathname).Redirect? ==> Middleware(Middleware(pathname).location) == Next
  {
    if Middleware(pathname).Redirect? {
      var target := Middleware(pathname).location;
      if pathname == "/" {
        assert target == "/en";
        assert FirstSegment("en") == "en";
      } else {
        assert target == "/" + ("en" + pathname);
        FirstSegmentAt("en", pathname[1..]);
        assert "en" + pathname == "en" + "/" + pathname[1..];
      }
      HasLocaleIff(target);
      assert target[1..] == if pathname == "/" then "en" else "en" + pathname;
    }
  }

  /** Any path, even one not starting with `/`, reaches a localized path after at most two redirects. */
  lemma AtMostTwoRedirects(pathname: string)
    ensures var a := Middleware(pathname);
      a.Redirect? ==> var b := Middleware(a.location);
      b.Redirect? ==> Middleware(b.location) == Next
  {
    var a := Middleware(pathname);
    if a.Redirect? {
      assert a.location != [] && a.location[0] == '/';
      NoRedirectLoop(a.location);
    }
  }

  /** The middleware's locale list and default are those of the translation dictionaries. */
  lemma SameLocalesAsI18n()
    ensures SUPPORTED_LANGUAGES == I18n.SUPPORTED_LANGUAGES
    ensures DEFAULT_LANGUAGE == I18n.DEFAULT_LANGUAGE
  {
  }
}
