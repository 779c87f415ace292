/** Marking the navigation link of the current page: paths and hrefs are compared after
    trailing slashes are stripped, the empty result standing for the site root. */
module ActiveNav {
  import opened Wrappers

  const ActiveClass: string := "active"

  /** `s.replace(/\/+$/, "")`: the maximal run of trailing slashes removed. */
  function StripTrailingSlashes(s: string): (r: string)
    ensures |r| <= |s| && r == s[..|r|]
    ensures forall i | |r| <= i < |s| :: s[i] == '/'
    ensures r == [] || r[|r| - 1] != '/'
  {
    if s != [] && s[|s| - 1] == '/' then StripTrailingSlashes(s[..|s| - 1]) else s
  }

  /** The stripped string is the only prefix that leaves nothing but slashes behind and
      does not itself end in a slash. */
  lemma StripTrailingSlashesUnique(s: string, p: string)
    requires |p| <= |s| && p == s[..|p|]
    requires forall i | |p| <= i < |s| :: s[i] == '/'
    requires p == [] || p[|p| - 1] != '/'
    ensures p == StripTrailingSlashes(s)
  {
  }

  /** The normalised form of a path or href: never empty, and `/` or slash-free at the end. */
  function Norm(s: string): (r: string)
    ensures r != []
    ensures r == "/" || r[|r| - 1] != '/'
    ensures r == "/" <==> StripTrailingSlashes(s) == []
    ensures StripTrailingSlashes(s) != [] ==> r == StripTrailingSlashes(s)
  {
    var t := StripTrailingSlashes(s);
    if t == [] then "/" else t
  }

  /** Normalising twice changes nothing. */
  lemma NormIdempotent(s: string)
    ensures Norm(Norm(s)) == Norm(s)
  {
    var n := Norm(s);
    if n == "/" {
      assert StripTrailingSlashes("/") == [] by {
        StripTrailingSlashesUnique("/", []);
      }
    } else {
      StripTrailingSlashesUnique(n, n);
    }
  }

  /** Trailing slashes never matter: `/x/`, `/x///` and `/x` normalise alike. */
  lemma NormIgnoresTrailingSlash(s: string)
    ensures Norm(s + "/") == Norm(s)
  {
    var t := s + "/";
    assert t[..|t| - 1] == s;
  }

  /** The page path: `location.pathname || "/"`, normalised. */
  function PagePath(pathname: string): (r: string)
    ensures r == Norm(pathname)
  {
    Norm(if pathname == "" then "/" else pathname)
  }

  /** A navigation link: its `href` attribute (absent or present) and its class list. */
  datatype Link = Link(href: Option<string>, classes: set<string>)

  /** `(a.getAttribute("href") || "")`, normalised. */
  function LinkTarget(l: Link): string
  {
    Norm(l.href.GetOr(""))
  }

  /** The script's loop over `[data-nav] a`: every link whose target is the page path gains
      `active`; classes are only ever added; nothing else about a link changes. */
  function MarkActive(pathname: string, links: seq<Link>): (r: seq<Link>)
    ensures |r| == |links|
    ensures forall i | 0 <= i < |r| :: r[i].href == links[i].href && links[i].classes <= r[i].classes
    ensures forall i | 0 <= i < |r| :: ActiveClass in r[i].classes <==> (LinkTarget(links[i]) == PagePath(pathname) || ActiveClass in links[i].classes)
    ensures forall i | 0 <= i < |r| :: LinkTarget(links[i]) != PagePath(pathname) ==> r[i] == links[i]
    ensures forall i | 0 <= i < |r| :: r[i].classes - links[i].classes <= {ActiveClass}
  {
    var path := PagePath(pathname);
    seq(|links|, i requires 0 <= i < |links| =>
      if LinkTarget(links[i]) == path then links[i].(classes := links[i].classes + {ActiveClass}) else links[i])
  }

  /** Running the script again changes nothing. */
  lemma MarkActiveIdempotent(pathname: string, links: seq<Link>)
    ensures MarkActive(pathname, MarkActive(pathname, links)) == MarkActive(pathname, links)
  {
  }

  /** A link without `href`, or with an empty one, is marked on the home page. */
  lemma MissingHrefMatchesHome(pathname: string)
    requires StripTrailingSlashes(pathname) == []
    ensures LinkTarget(Link(None, {})) == PagePath(pathname)
    ensures LinkTarget(Link(Some(""), {})) == PagePath(pathname)
  {
  }
}
