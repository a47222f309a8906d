/**
 * The permanent redirects of the site configuration, as a rule table over
 * path segments. A `:name` parameter matches exactly one non-empty segment.
 */
module Redirects {
  import opened Wrappers

  /** A piece of a route pattern: a literal segment, or a `:name` parameter. */
  datatype Pattern = Lit(segment: string) | Param(name: string)

  datatype Rule = Rule(source: seq<Pattern>, destination: seq<Pattern>, permanent: bool)

  /** Where a matched path is sent, and whether the redirect is permanent (308). */
  datatype Redirect = Redirect(destination: seq<string>, permanent: bool)

  const RULES: seq<Rule> := [
    Rule([Param("lang"), Lit("blog")], [Param("lang"), Lit("about"), Lit("blog")], true),
    Rule([Param("lang"), Lit("blog"), Param("slug")], [Param("lang"), Lit("about"), Lit("blog"), Param("slug")], true),
    Rule([Param("lang"), Lit("comments")], [Param("lang"), Lit("testimonials")], true)
  ]

  /** The parameter values a path gives a pattern, or `None` when it does not match. */
  function Match(pattern: seq<Pattern>, path: seq<string>): (r: Option<map<string, string>>)
    ensures r.Some? ==> |path| == |pattern|
    ensures r.Some? ==> forall i :: 0 <= i < |pattern| && pattern[i].Lit? ==> path[i] == pattern[i].segment
    ensures r.Some? ==> forall i :: 0 <= i < |pattern| && pattern[i].Param? ==> path[i] != ""
  {
    if |pattern| != |path| then None
    else if pattern == [] then Some(map[])
    else
      match Match(pattern[1..], path[1..])
      case None => None
      case Some(b) =>
        match pattern[0]
        case Lit(s) => if path[0] == s then Some(b) else None
        case Param(n) => if path[0] != "" then Some(b[n := path[0]]) else None
  }

  /** The destination with each parameter replaced by its value. */
  function Substitute(pattern: seq<Pattern>, b: map<string, string>): (r: seq<string>)
    ensures |r| == |pattern|
  {
    if pattern == [] then []
    else
      var s := match pattern[0]
        case Lit(s) => s
        case Param(n) => if n in b then b[n] else "";
      [s] + Substitute(pattern[1..], b)
  }

  /** The first rule whose source matches decides the redirect. */
  function FindRedirect(rules: seq<Rule>, path: seq<string>): Option<Redirect> {
    if rules == [] then None
    else
      match Match(rules[0].source, path)
      case Some(b) => Some(Redirect(Substitute(rules[0].destination, b), rules[0].permanent))
      case None => FindRedirect(rules[1..], path)
  }

  /** The path a request ends at: the redirect's destination, or the path itself when no rule matches. */
  function Resolve(path: seq<string>): seq<string> {
    match FindRedirect(RULES, path)
    case Some(r) => r.destination
    case None => path
  }

  /** The three shapes the table redirects, and where each goes. */
  function TableRedirect(path: seq<string>): Option<Redirect> {
    if |path| == 2 && path[0] != "" && path[1] == "blog" then Some(Redirect([path[0], "about", "blog"], true))
    else if |path| == 3 && path[0] != "" && path[1] == "blog" && path[2] != "" then Some(Redirect([path[0], "about", "blog", path[2]], true))
    else if |path| == 2 && path[0] != "" && path[1] == "comments" then Some(Redirect([path[0], "testimonials"], true))
    else None
  }

  /** What the first-match search over the rule table decides, for every path. */
  lemma FindRedirectTable(path: seq<string>)
    ensures FindRedirect(RULES, path) == TableRedirect(path)
  {
    var r0, r1, r2 := RULES[0], RULES[1], RULES[2];
    assert RULES[1..] == [r1, r2] && RULES[1..][1..] == [r2] && RULES[1..][1..][1..] == [];
    var m0 := Match(r0.source, path);
    var m1 := Match(r1.source, path);
    var m2 := Match(r2.source, path);
    MatchParamLit("lang", "blog", path);
    MatchParamLitParam("lang", "blog", "slug", path);
    MatchParamLit("lang", "comments", path);
    if m0.Some? {
      assert m0.value == map["lang" := path[0]];
      SubstituteLang(r0.destination, path[0]);
      assert [path[0]] + ["about", "blog"] == [path[0], "about", "blog"];
    } else if m1.Some? {
      assert FindRedirect(RULES, path) == FindRedirect(RULES[1..], path);
      var b := m1.value;
      assert b == map["lang" := path[0], "slug" := path[2]];
      var d := r1.destination;
      assert d[1..][1..][1..][1..] == [];
      assert Substitute(d[1..][1..][1..], b) == [path[2]];
      assert Substitute(d[1..][1..], b) == ["blog", path[2]];
      assert Substitute(d[1..], b) == ["about", "blog", path[2]];
      assert Substitute(d, b) == [path[0], "about", "blog", path[2]];
    } else if m2.Some? {
      assert FindRedirect(RULES, path) == FindRedirect(RULES[1..], path) == FindRedirect(RULES[1..][1..], path);
      assert m2.value == map["lang" := path[0]];
      SubstituteLang(r2.destination, path[0]);
      assert [path[0]] + ["testimonials"] == [path[0], "testimonials"];
    } else {
      assert FindRedirect(RULES, path) == FindRedirect(RULES[1..], path) == FindRedirect(RULES[1..][1..], path);
      assert FindRedirect(RULES[1..][1..], path) == FindRedirect(RULES[1..][1..][1..], path) == None;
    }
  }

  lemma MatchParamLit(name: string, lit: string, path: seq<string>)
    ensures Match([Param(name), Lit(lit)], path) ==
      if |path| == 2 && path[0] != "" && path[1] == lit then Some(map[name := path[0]]) else None
  {
    var pat := [Param(name), Lit(lit)];
    if |path| == 2 {
      assert pat[1..][1..] == [] && path[1..][1..] == [];
      assert Match(pat[1..], path[1..]) == if path[1] == lit then Some(map[]) else None;
    }
  }

  lemma MatchParamLitParam(name: string, lit: string, last: string, path: seq<string>)
    requires name != last
    ensures Match([Param(name), Lit(lit), Param(last)], path) ==
      if |path| == 3 && path[0] != "" && path[1] == lit && path[2] != "" then Some(map[name := path[0], last := path[2]]) else None
  {
    var pat := [Param(name), Lit(lit), Param(last)];
    if |path| == 3 {
      assert pat[1..][1..][1..] == [] && path[1..][1..][1..] == [];
      assert Match(pat[1..][1..], path[1..][1..]) == if path[2] != "" then Some(map[last := path[2]]) else None;
      assert Match(pat[1..], path[1..]) == if path[1] == lit && path[2] != "" then Some(map[last := path[2]]) else None;
      assert map[last := path[2]][name := path[0]] == map[name := path[0], last := path[2]];
    }
  }

  lemma SubstituteLang(d: seq<Pattern>, lang: string)
    requires d == [Param("lang"), Lit("about"), Lit("blog")] || d == [Param("lang"), Lit("testimonials")]
    ensures Substitute(d, map["lang" := lang]) == [lang] + Substitute(d[1..], map[])
    ensures Substitute(d[1..], map[]) == if |d| == 3 then ["about", "blog"] else ["testimonials"]
  {
    var b := map["lang" := lang];
    if |d| == 3 {
      assert d[1..][1..][1..] == [];
      assert Substitute(d[1..][1..], b) == ["blog"];
    } else {
      assert d[1..][1..] == [];
    }
  }

  /** `/:lang/blog` goes permanently to `/:lang/about/blog`. */
  lemma BlogRedirect(lang: string)
    requires lang != ""
    ensures FindRedirect(RULES, [lang, "blog"]) == Some(Redirect([lang, "about", "blog"], true))
  {
    FindRedirectTable([lang, "blog"]);
  }

  /** `/:lang/blog/:slug` goes permanently to `/:lang/about/blog/:slug`. */
  lemma BlogPostRedirect(lang: string, slug: string)
    requires lang != "" && slug != ""
    ensures FindRedirect(RULES, [lang, "blog", slug]) == Some(Redirect([lang, "about", "blog", slug], true))
  {
    FindRedirectTable([lang, "blog", slug]);
  }

  /** `/:lang/comments` goes permanently to `/:lang/testimonials`. */
  lemma CommentsRedirect(lang: string)
    requires lang != ""
    ensures FindRedirect(RULES, [lang, "comments"]) == Some(Redirect([lang, "testimonials"], true))
  {
    FindRedirectTable([lang, "comments"]);
  }

  /** Exactly the paths of the three source shapes are redirected, and every redirect is permanent. */
  lemma RedirectedIff(path: seq<string>)
    ensures FindRedirect(RULES, path).Some? <==>
      || (|path| == 2 && path[0] != "" && (path[1] == "blog" || path[1] == "comments"))
      || (|path| == 3 && path[0] != "" && path[1] == "blog" && path[2] != "")
    ensures FindRedirect(RULES, path).Some? ==> FindRedirect(RULES, path).value.permanent
  {
    FindRedirectTable(path);
  }

  /** No destination matches a source, so resolving twice is resolving once; an unmatched path is left as it is. */
  lemma ResolveIdempotent(path: seq<string>)
    ensures Resolve(Resolve(path)) == Resolve(path)
    ensures FindRedirect(RULES, path).None? ==> Resolve(path) == path
  {
    FindRedirectTable(path);
    FindRedirectTable(Resolve(path));
  }
}
