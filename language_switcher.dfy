/**
 * The language switcher: the three language buttons, which one is
 * highlighted, and the path a click navigates to.
 */
module LanguageSwitcher {
  import I18n
  import Middleware

  /** A button of the switcher (`caption` is the source's `label`, a reserved word here). */
  datatype Language = Language(code: string, caption: string)

  const LANGUAGES: seq<Language> := [Language("en", "EN"), Language("ru", "RU"), Language("uz", "UZ")]

  /** A button is highlighted when the page's language is its code. */
  predicate IsActive(currentLang: string, lang: Language) {
    currentLang == lang.code
  }

  /** The buttons are en, ru and uz in that order; at most one is highlighted, and one is exactly when the page's language is supported. */
  lemma LanguagesTable(currentLang: string)
    ensures |LANGUAGES| == |I18n.SUPPORTED_LANGUAGES|
    ensures forall i :: 0 <= i < |LANGUAGES| ==> LANGUAGES[i].code == I18n.SUPPORTED_LANGUAGES[i]
    ensures forall i, j :: 0 <= i < j < |LANGUAGES| ==> !(IsActive(currentLang, LANGUAGES[i]) && IsActive(currentLang, LANGUAGES[j]))
    ensures (exists i :: 0 <= i < |LANGUAGES| && IsActive(currentLang, LANGUAGES[i])) <==> currentLang in I18n.SUPPORTED_LANGUAGES
  {
    if currentLang in I18n.SUPPORTED_LANGUAGES {
      var i :| 0 <= i < 3 && I18n.SUPPORTED_LANGUAGES[i] == currentLang;
      assert IsActive(currentLang, LANGUAGES[i]);
    }
  }

  /** `s.split('/')`: the pieces between the slashes, empty ones included. */
  function Split(s: string): (r: seq<string>)
    ensures |r| >= 1
    ensures forall i :: 0 <= i < |r| ==> '/' !in r[i]
  {
    if s == [] then [""]
    else if s[0] == '/' then [""] + Split(s[1..])
    else
      var rest := Split(s[1..]);
      [[s[0]] + rest[0]] + rest[1..]
  }

  /** `.filter(Boolean)`: the non-empty strings, in order. */
  function NonEmpty(ss: seq<string>): (r: seq<string>)
    ensures forall i :: 0 <= i < |r| ==> r[i] != ""
    ensures forall x :: x in r <==> x in ss && x != ""
  {
    if ss == [] then []
    else (if ss[0] != "" then [ss[0]] else []) + NonEmpty(ss[1..])
  }

  /** `.join('/')`. */
  function Join(ss: seq<string>): string {
    if ss == [] then ""
    else if |ss| == 1 then ss[0]
    else ss[0] + "/" + Join(ss[1..])
  }

  /** `.slice(1)`: everything after the first element, nothing for an empty list. */
  function Rest(ss: seq<string>): seq<string> {
    if ss == [] then [] else ss[1..]
  }

  /** The non-empty segments of a path. */
  function Segments(pathname: string): seq<string> {
    NonEmpty(Split(pathname))
  }

  /** Segments as a path builds them: non-empty and without `/`. */
  predicate ProperSegments(ss: seq<string>) {
    forall i :: 0 <= i < |ss| ==> ss[i] != "" && '/' !in ss[i]
  }

  /** `switchLanguage`: the new code, then the segments after the first one. */
  function SwitchLanguage(pathname: string, newLang: string): (r: string)
    ensures |r| > |newLang| && r[..|newLang| + 1] == "/" + newLang
  {
    var segments := Segments(pathname);
    var basePath := Join(Rest(segments));
    "/" + newLang + (if basePath != "" then "/" + basePath else "")
  }

  lemma {:induction false} SplitConcat(x: string, y: string)
    ensures Split(x + "/" + y) == Split(x) + Split(y)
  {
    if x == [] {
      assert x + "/" + y == "/" + y;
      assert ("/" + y)[1..] == y;
    } else {
      assert (x + "/" + y)[1..] == x[1..] + "/" + y;
      assert (x + "/" + y)[0] == x[0];
      SplitConcat(x[1..], y);
    }
  }

  lemma {:induction false} SplitSlashFree(w: string)
    requires '/' !in w
    ensures Split(w) == [w]
  {
    if w != [] {
      SplitSlashFree(w[1..]);
      assert [w[0]] + w[1..] == w;
    }
  }

  /** Splitting a join gives the pieces back when none contains `/`. */
  lemma {:induction false} SplitJoin(ss: seq<string>)
    requires ss != []
    requires forall i :: 0 <= i < |ss| ==> '/' !in ss[i]
    ensures Split(Join(ss)) == ss
  {
    if |ss| == 1 {
      SplitSlashFree(ss[0]);
    } else {
      SplitJoin(ss[1..]);
      SplitConcat(ss[0], Join(ss[1..]));
      SplitSlashFree(ss[0]);
      assert [ss[0]] + ss[1..] == ss;
    }
  }

  lemma {:induction false} NonEmptyAppend(a: seq<string>, b: seq<string>)
    ensures NonEmpty(a + b) == NonEmpty(a) + NonEmpty(b)
  {
    if a == [] {
      assert a + b == b;
    } else {
      assert (a + b)[1..] == a[1..] + b;
      NonEmptyAppend(a[1..], b);
    }
  }

  lemma {:induction false} NonEmptyKeepsProper(ss: seq<string>)
    requires ProperSegments(ss)
    ensures NonEmpty(ss) == ss
  {
    if ss != [] {
      NonEmptyKeepsProper(ss[1..]);
      assert [ss[0]] + ss[1..] == ss;
    }
  }

  /** The segments of a joined path are the segments it was joined from. */
  lemma SegmentsJoin(ss: seq<string>)
    requires ProperSegments(ss)
    ensures Segments(Join(ss)) == ss
    ensures Segments("/" + Join(ss)) == ss
  {
    if ss != [] {
      SplitJoin(ss);
      NonEmptyKeepsProper(ss);
    }
    SplitConcat("", Join(ss));
    assert "" + "/" + Join(ss) == "/" + Join(ss);
    NonEmptyAppend([""], Split(Join(ss)));
  }

  lemma SegmentsProper(pathname: string)
    ensures ProperSegments(Segments(pathname))
  {
    var ss := Segments(pathname);
    forall i | 0 <= i < |ss| ensures ss[i] != "" && '/' !in ss[i] {
      assert ss[i] in Split(pathname);
    }
  }

  /** The switched path is `/` followed by the new code and the remaining segments, joined with `/`. */
  lemma SwitchShape(pathname: string, newLang: string)
    ensures SwitchLanguage(pathname, newLang) == "/" + Join([newLang] + Rest(Segments(pathname)))
  {
    var rest := Rest(Segments(pathname));
    SegmentsProper(pathname);
    if rest != [] {
      assert rest[0] != "";
      assert Join(rest) != "";
      assert ([newLang] + rest)[1..] == rest;
    }
  }

  /**
   * After a switch the path's segments are the new code followed by every
   * segment of the old path but the first, whatever that first one was;
   * empty segments (from doubled or trailing slashes) are gone.
   */
  lemma SwitchSegments(pathname: string, newLang: string)
    requires newLang != "" && '/' !in newLang
    ensures Segments(SwitchLanguage(pathname, newLang)) == [newLang] + Rest(Segments(pathname))
  {
    SwitchShape(pathname, newLang);
    SegmentsProper(pathname);
    SegmentsJoin([newLang] + Rest(Segments(pathname)));
  }

  /** Switching to `a` and then to `b` lands where switching straight to `b` does. */
  lemma SwitchTwice(pathname: string, a: string, b: string)
    requires a != "" && '/' !in a
    ensures SwitchLanguage(SwitchLanguage(pathname, a), b) == SwitchLanguage(pathname, b)
  {
    SwitchSegments(pathname, a);
    assert Rest([a] + Rest(Segments(pathname))) == Rest(Segments(pathname));
  }

  lemma {:induction false} JoinLastChar(ss: seq<string>)
    requires ss != [] && ProperSegments(ss)
    ensures Join(ss) != "" && Join(ss)[|Join(ss)| - 1] == ss[|ss| - 1][|ss[|ss| - 1]| - 1]
  {
    if |ss| > 1 {
      JoinLastChar(ss[1..]);
    }
  }

  /** A switch to a non-empty code never leaves a trailing slash. */
  lemma NoTrailingSlash(pathname: string, newLang: string)
    requires newLang != "" && '/' !in newLang
    ensures var p := SwitchLanguage(pathname, newLang); p[|p| - 1] != '/'
  {
    SwitchShape(pathname, newLang);
    SegmentsProper(pathname);
    var ss := [newLang] + Rest(Segments(pathname));
    JoinLastChar(ss);
    assert ss[|ss| - 1] in ss;
  }

  /** The first segment is dropped without looking at it: `/services` switched to `ru` is `/ru`. */
  lemma FirstSegmentDropped()
    ensures SwitchLanguage("/services", "ru") == "/ru"
  {
    var p := "/services";
    assert Join(["services"]) == "services";
    assert p == "/" + Join(["services"]);
    SegmentsJoin(["services"]);
    assert Segments(p) == ["services"];
    assert Rest(Segments(p)) == [];
    assert Join(Rest(Segments(p))) == "";
  }

  /** A switch to a supported language lands on a path the middleware lets through. */
  lemma SwitchPassesMiddleware(pathname: string, newLang: string)
    requires newLang in I18n.SUPPORTED_LANGUAGES
    ensures Middleware.Middleware(SwitchLanguage(pathname, newLang)) == Middleware.Next
  {
    var p := SwitchLanguage(pathname, newLang);
    var rest := Rest(Segments(pathname));
    SwitchShape(pathname, newLang);
    SegmentsProper(pathname);
    assert p[1..] == Join([newLang] + rest);
    if rest == [] {
      Middleware.FirstSegmentSlashFree(newLang);
    } else {
      assert ([newLang] + rest)[1..] == rest;
      Middleware.FirstSegmentAt(newLang, Join(rest));
    }
    Middleware.HasLocaleIff(p);
  }
}
