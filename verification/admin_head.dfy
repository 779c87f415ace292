/** The admin pages' head script: insert-if-absent helpers for `<link>`, `<meta>` and
    `<script>`, the versioned header stylesheet, and the fixed list of additions the script
    makes when it loads. Unlike the public site's upserts, nothing here overwrites an
    element that is already present, except the header stylesheet's `href`. */
module AdminHead {
  import opened Wrappers
  import opened Text
  import opened Dom

  /** `Object.entries(obj)`: attribute names with their values, in insertion order. */
  type Entries<V> = seq<(string, V)>

  function KeysOf<V>(xs: Entries<V>): set<string>
  {
    set i | 0 <= i < |xs| :: xs[i].0
  }

  /** An object's entries never repeat a key. */
  predicate DistinctKeys<V>(xs: Entries<V>)
  {
    forall i, j | 0 <= i < j < |xs| :: xs[i].0 != xs[j].0
  }

  /** Entry `i` is the last one for its key, so its value is the one left standing. */
  predicate LastFor<V>(xs: Entries<V>, i: nat)
    requires i < |xs|
  {
    forall j | i < j < |xs| :: xs[j].0 != xs[i].0
  }

  /** `Object.entries(extra).forEach(([k, v]) => el.setAttribute(k, v))`: every key of
      `extra` ends up with the value of its last entry; every other attribute is untouched. */
  function SetAll(m: map<string, string>, extra: Entries<string>): (r: map<string, string>)
    ensures r.Keys == m.Keys + KeysOf(extra)
    ensures forall k | k in m && k !in KeysOf(extra) :: r[k] == m[k]
    ensures forall i | 0 <= i < |extra| && LastFor(extra, i) :: r[extra[i].0] == extra[i].1
    decreases |extra|
  {
    if extra == [] then m
    else
      var r := SetAll(m[extra[0].0 := extra[0].1], extra[1..]);
      forall i | 0 <= i < |extra| && LastFor(extra, i) ensures r[extra[i].0] == extra[i].1 {
        if i == 0 {
          forall j | 0 <= j < |extra[1..]| ensures extra[1..][j].0 != extra[0].0 {
            assert extra[1..][j] == extra[j + 1];
          }
        } else {
          assert extra[i] == extra[1..][i - 1];
          forall j | i - 1 < j < |extra[1..]| ensures extra[1..][j].0 != extra[1..][i - 1].0 {
            assert extra[1..][j] == extra[j + 1];
          }
          assert LastFor(extra[1..], i - 1);
        }
      }
      assert KeysOf(extra) == {extra[0].0} + KeysOf(extra[1..]) by {
        forall k | k in KeysOf(extra) ensures k in {extra[0].0} + KeysOf(extra[1..]) {
          var i :| 0 <= i < |extra| && extra[i].0 == k;
          if i > 0 {
            assert extra[1..][i - 1].0 == k;
          }
        }
      }
      r
  }

  /** The selector `link[rel="rel"][href="href"]`. */
  function LinkKey(rel: string, href: string): map<string, string>
  {
    map["rel" := rel, "href" := href]
  }

  /** `addLink(rel, href, extra)`: nothing for an empty `href` or when a link with the same
      `rel` and `href` is present; otherwise exactly one new link at the end. */
  function AddLink(h: Head, rel: string, href: string, extra: Entries<string>): (r: Head)
    ensures href == "" || Has(h, "link", LinkKey(rel, href)) ==> r == h
    ensures href != "" && !Has(h, "link", LinkKey(rel, href)) ==>
              |r| == |h| + 1 && Extends(h, r) && r[|h|].tag == "link"
              && r[|h|].attrs.Keys == {"rel", "href"} + KeysOf(extra)
    // The new link's `rel` and `href` are the arguments unless an extra entry overrides
    // them, and every extra attribute has the value of its last entry.
    ensures href != "" && !Has(h, "link", LinkKey(rel, href)) ==>
              ("rel" !in KeysOf(extra) ==> r[|h|].attrs["rel"] == rel)
              && ("href" !in KeysOf(extra) ==> r[|h|].attrs["href"] == href)
              && forall i | 0 <= i < |extra| && LastFor(extra, i) :: r[|h|].attrs[extra[i].0] == extra[i].1
    ensures href != "" && "rel" !in KeysOf(extra) && "href" !in KeysOf(extra) ==> Has(r, "link", LinkKey(rel, href))
  {
    if href == "" || Has(h, "link", LinkKey(rel, href)) then h
    else
      var r := h + [Element("link", SetAll(LinkKey(rel, href), extra))];
      assert r[..|h|] == h;
      r
  }

  /** Adding a link twice adds it once, as long as the extra attributes leave `rel` and
      `href` alone (every call in the script satisfies this). */
  lemma AddLinkIdempotent(h: Head, rel: string, href: string, extra: Entries<string>)
    requires "rel" !in KeysOf(extra) && "href" !in KeysOf(extra)
    ensures AddLink(AddLink(h, rel, href, extra), rel, href, extra) == AddLink(h, rel, href, extra)
  {
  }

  /** When the last `href` entry among the extra attributes renames the link, the link
      never matches its own key, so every call appends another copy. */
  lemma AddLinkOverriddenHrefRepeats(h: Head, rel: string, href: string, extra: Entries<string>, i: nat)
    requires href != "" && !Has(h, "link", LinkKey(rel, href))
    requires i < |extra| && extra[i].0 == "href" && extra[i].1 != href && LastFor(extra, i)
    ensures var h1 := AddLink(h, rel, href, extra);
            |h1| == |h| + 1 && !Has(h1, "link", LinkKey(rel, href))
            && |AddLink(h1, rel, href, extra)| == |h| + 2
  {
    var h1 := AddLink(h, rel, href, extra);
    assert h1[|h|].attrs["href"] == extra[i].1;
    assert !Matches(h1[|h|], "link", LinkKey(rel, href));
    assert forall j | 0 <= j < |h| :: h1[j] == h[j];
  }

  /** The selector `meta[property="p"]` or `meta[name="n"]`. */
  function MetaKey(nameOrProp: string, isProp: bool): map<string, string>
  {
    map[(if isProp then "property" else "name") := nameOrProp]
  }

  /** `addMeta(nameOrProp, content, isProp)`: keyed on the name or property alone, so an
      existing element keeps whatever content it has; an empty content adds nothing. */
  function AddMeta(h: Head, nameOrProp: string, content: string, isProp: bool): (r: Head)
    ensures content == "" || Has(h, "meta", MetaKey(nameOrProp, isProp)) ==> r == h
    ensures content != "" && !Has(h, "meta", MetaKey(nameOrProp, isProp)) ==>
              r == h + [Element("meta", MetaKey(nameOrProp, isProp)["content" := content])]
    ensures content != "" ==> Has(r, "meta", MetaKey(nameOrProp, isProp))
  {
    var key := MetaKey(nameOrProp, isProp);
    if content == "" || Has(h, "meta", key) then h
    else
      var r := h + [Element("meta", key["content" := content])];
      assert Matches(r[|h|], "meta", key);
      r
  }

  lemma AddMetaIdempotent(h: Head, nameOrProp: string, content: string, isProp: bool)
    ensures AddMeta(AddMeta(h, nameOrProp, content, isProp), nameOrProp, content, isProp)
            == AddMeta(h, nameOrProp, content, isProp)
  {
  }

  /** A script attribute value: `true`, `false`, `null`/`undefined`, or anything else,
      already turned into its string form. */
  datatype AttrValue = Flag(on: bool) | Nullish | Value(text: string)

  /** One step of `addScript`'s attribute loop. */
  function SetScriptAttr(m: map<string, string>, k: string, v: AttrValue): map<string, string>
  {
    match v
    case Flag(on) => if on then m[k := k] else m
    case Nullish => m
    case Value(t) => m[k := t]
  }

  /** What the attribute loop leaves for key `k` given its value `v`: `true` becomes the
      name itself, a string is stored, `false` and nullish values leave the key as it was. */
  predicate Applied(m: map<string, string>, r: map<string, string>, k: string, v: AttrValue)
  {
    match v
    case Flag(on) =>
      if on then k in r && r[k] == k else (k in r <==> k in m) && (k in m ==> r[k] == m[k])
    case Nullish => (k in r <==> k in m) && (k in m ==> r[k] == m[k])
    case Value(t) => k in r && r[k] == t
  }

  function SetScriptAttrs(m: map<string, string>, attrs: Entries<AttrValue>): (r: map<string, string>)
    requires DistinctKeys(attrs)
    ensures forall i | 0 <= i < |attrs| :: Applied(m, r, attrs[i].0, attrs[i].1)
    ensures forall k | k !in KeysOf(attrs) :: (k in r <==> k in m) && (k in m ==> r[k] == m[k])
    decreases |attrs|
  {
    if attrs == [] then m
    else
      var m' := SetScriptAttr(m, attrs[0].0, attrs[0].1);
      var r := SetScriptAttrs(m', attrs[1..]);
      assert attrs[0].0 !in KeysOf(attrs[1..]) by {
        forall i | 0 <= i < |attrs[1..]| ensures attrs[1..][i].0 != attrs[0].0 {
          assert attrs[1..][i] == attrs[i + 1];
        }
      }
      assert forall k | k !in KeysOf(attrs) :: k != attrs[0].0 && k !in KeysOf(attrs[1..]) by {
        forall k | k !in KeysOf(attrs) ensures k != attrs[0].0 && k !in KeysOf(attrs[1..]) {
          assert attrs[0].0 in KeysOf(attrs);
          forall i | 0 <= i < |attrs[1..]| ensures attrs[1..][i].0 != k {
            assert attrs[1..][i] == attrs[i + 1];
          }
        }
      }
      assert forall i | 1 <= i < |attrs| :: attrs[i] == attrs[1..][i - 1] && attrs[i].0 != attrs[0].0;
      r
  }

  /** The selector `script[src="src"]`. */
  function ScriptKey(src: string): map<string, string>
  {
    map["src" := src]
  }

  /** `addScript(src, attrs)`: no script and no element for an empty `src`; the first script
      with that `src` when one is present, with nothing added; otherwise a new script at
      the end carrying `src` and the attributes, and its position. */
  function AddScript(h: Head, src: string, attrs: Entries<AttrValue>): (r: (Head, Option<nat>))
    requires DistinctKeys(attrs)
    ensures src == "" ==> r == (h, None)
    ensures src != "" && Has(h, "script", ScriptKey(src)) ==> r == (h, Find(h, "script", ScriptKey(src)))
    ensures src != "" && !Has(h, "script", ScriptKey(src)) ==>
              |r.0| == |h| + 1 && Extends(h, r.0) && r.1 == Some(|h|) && r.0[|h|].tag == "script"
              && forall i | 0 <= i < |attrs| :: Applied(ScriptKey(src), r.0[|h|].attrs, attrs[i].0, attrs[i].1)
    // Apart from the given attributes, the new script carries `src` and nothing else.
    ensures src != "" && !Has(h, "script", ScriptKey(src)) ==>
              forall k | k !in KeysOf(attrs) :: (k in r.0[|h|].attrs <==> k == "src") && (k == "src" ==> r.0[|h|].attrs[k] == src)
    ensures src != "" && "src" !in KeysOf(attrs) ==>
              r.1.Some? && r.1.value < |r.0| && Matches(r.0[r.1.value], "script", ScriptKey(src))
  {
    if src == "" then (h, None)
    else if Has(h, "script", ScriptKey(src)) then (h, Find(h, "script", ScriptKey(src)))
    else
      var e := Element("script", SetScriptAttrs(ScriptKey(src), attrs));
      var h' := h + [e];
      assert h'[..|h|] == h;
      (h', Some(|h|))
  }

  /** A second `addScript` with the same `src` returns the script the first one added. */
  lemma AddScriptIdempotent(h: Head, src: string, attrs: Entries<AttrValue>)
    requires DistinctKeys(attrs) && "src" !in KeysOf(attrs)
    ensures var (h1, s1) := AddScript(h, src, attrs);
            AddScript(h1, src, attrs) == (h1, s1)
  {
    var (h1, s1) := AddScript(h, src, attrs);
    if src != "" && !Has(h, "script", ScriptKey(src)) {
      assert Find(h1, "script", ScriptKey(src)) == Some(|h|);
    }
  }

  const Version: string := "20251231-final"
  const HeaderCssPath: string := "/assets/css/header.css"
  const HeaderCssUrl: string := HeaderCssPath + "?v=" + Version

  /** `l.href`, with a missing attribute read as empty. */
  function HrefOf(e: Element): string
  {
    if "href" in e.attrs then e.attrs["href"] else ""
  }

  /** A `link[rel="stylesheet"]` whose href mentions the header stylesheet. */
  predicate IsHeaderCss(e: Element)
  {
    Matches(e, "link", map["rel" := "stylesheet"]) && Contains(HrefOf(e), HeaderCssPath)
  }

  /** The position of the first header stylesheet link. */
  function FirstHeaderCss(h: Head): (r: Option<nat>)
    ensures r.Some? ==> r.value < |h| && IsHeaderCss(h[r.value])
    ensures r.Some? ==> forall j | 0 <= j < r.value :: !IsHeaderCss(h[j])
    ensures r.None? <==> forall j | 0 <= j < |h| :: !IsHeaderCss(h[j])
  {
    if h == [] then None
    else if IsHeaderCss(h[0]) then Some(0)
    else
      match FirstHeaderCss(h[1..])
      case None => None
      case Some(i) => Some(i + 1)
  }

  lemma FirstHeaderCssExtends(h: Head, r: Head)
    requires Extends(h, r) && FirstHeaderCss(h).Some?
    ensures FirstHeaderCss(r) == FirstHeaderCss(h)
  {
    var i := FirstHeaderCss(h).value;
    assert r[i] == h[i];
    forall j | 0 <= j < i ensures !IsHeaderCss(r[j]) {
      assert r[j] == h[j];
    }
    FirstHeaderCssIsFirst(r, i);
  }

  /** The first header link's position is what `FirstHeaderCss` answers. */
  lemma FirstHeaderCssIsFirst(h: Head, i: nat)
    requires i < |h| && IsHeaderCss(h[i])
    requires forall j | 0 <= j < i :: !IsHeaderCss(h[j])
    ensures FirstHeaderCss(h) == Some(i)
  {
  }


  lemma UrlIsHeaderCss()
    ensures Contains(HeaderCssUrl, HeaderCssPath)
  {
    assert OccursAt(HeaderCssUrl, HeaderCssPath, 0);
  }

  /** Pointing the first header link at the versioned URL keeps it the first one. */
  function Retarget(h: Head, i: nat): (r: Head)
    requires FirstHeaderCss(h) == Some(i)
    ensures |r| == |h| && FirstHeaderCss(r) == Some(i) && HrefOf(r[i]) == HeaderCssUrl
    ensures r[i].attrs - {"href"} == h[i].attrs - {"href"}
    ensures forall j | 0 <= j < |h| && j != i :: r[j] == h[j]
  {
    UrlIsHeaderCss();
    var r := h[i := SetAttr(h[i], "href", HeaderCssUrl)];
    assert IsHeaderCss(r[i]);
    forall j | 0 <= j < i ensures !IsHeaderCss(r[j]) {
      assert r[j] == h[j];
    }
    FirstHeaderCssIsFirst(r, i);
    r
  }

  /** Without a header link, `addLink("stylesheet", url)` always appends one. */
  function AppendHeaderCss(h: Head): (r: Head)
    requires FirstHeaderCss(h).None?
    ensures |r| == |h| + 1 && Extends(h, r)
    ensures FirstHeaderCss(r) == Some(|h|) && HrefOf(r[|h|]) == HeaderCssUrl
    ensures r[|h|] == Element("link", map["rel" := "stylesheet", "href" := HeaderCssUrl])
  {
    var e := Element("link", LinkKey("stylesheet", HeaderCssUrl));
    assert IsHeaderCss(e) by {
      UrlIsHeaderCss();
      assert HrefOf(e) == HeaderCssUrl;
    }
    assert !Has(h, "link", LinkKey("stylesheet", HeaderCssUrl));
    assert SetAll(LinkKey("stylesheet", HeaderCssUrl), []) == LinkKey("stylesheet", HeaderCssUrl);
    var r := AddLink(h, "stylesheet", HeaderCssUrl, []);
    assert r == h + [e];
    assert forall j | 0 <= j < |h| :: r[j] == h[j];
    r
  }

  /** `injectHeaderCSS()`: the first header stylesheet link is pointed at the versioned URL,
      or, when there is none, a stylesheet link to it is added. Either way the first header
      link afterwards carries exactly the versioned URL and nothing else changes. */
  function InjectHeaderCss(h: Head): (r: Head)
    ensures |r| == if FirstHeaderCss(h).Some? then |h| else |h| + 1
    ensures FirstHeaderCss(h).Some? ==> FirstHeaderCss(r) == FirstHeaderCss(h)
    ensures FirstHeaderCss(r).Some? && HrefOf(r[FirstHeaderCss(r).value]) == HeaderCssUrl
    ensures forall j | 0 <= j < |h| && Some(j) != FirstHeaderCss(h) :: r[j] == h[j]
    ensures FirstHeaderCss(h).Some? ==> r[FirstHeaderCss(h).value].attrs - {"href"} == h[FirstHeaderCss(h).value].attrs - {"href"}
    // The link added when there is none carries exactly `rel` and `href`.
    ensures FirstHeaderCss(h).None? ==> r[|h|] == Element("link", map["rel" := "stylesheet", "href" := HeaderCssUrl])
  {
    match FirstHeaderCss(h)
    case Some(i) => Retarget(h, i)
    case None => AppendHeaderCss(h)
  }

  /** When the first header link already has the versioned URL, injecting changes nothing. */
  lemma InjectHeaderCssSettled(h: Head)
    requires FirstHeaderCss(h).Some? && HrefOf(h[FirstHeaderCss(h).value]) == HeaderCssUrl
    ensures InjectHeaderCss(h) == h
  {
    var i := FirstHeaderCss(h).value;
    assert "href" in h[i].attrs && h[i].attrs["href"] == HeaderCssUrl;
    assert h[i].attrs["href" := HeaderCssUrl] == h[i].attrs;
    assert SetAttr(h[i], "href", HeaderCssUrl) == h[i];
    assert Retarget(h, i) == h[i := h[i]] == h;
  }

  lemma InjectHeaderCssIdempotent(h: Head)
    ensures InjectHeaderCss(InjectHeaderCss(h)) == InjectHeaderCss(h)
  {
    InjectHeaderCssSettled(InjectHeaderCss(h));
  }

  /** One of the script's insert-if-absent calls. */
  datatype Addition =
    | LinkAddition(rel: string, href: string, extra: Entries<string>)
    | MetaAddition(nameOrProp: string, content: string, isProp: bool)

  function Apply(h: Head, a: Addition): (r: Head)
    ensures Extends(h, r)
  {
    assert h[..|h|] == h;
    match a
    case LinkAddition(rel, href, extra) => AddLink(h, rel, href, extra)
    case MetaAddition(n, content, isProp) => AddMeta(h, n, content, isProp)
  }

  /** The addition would find its element already present (or has nothing to add). */
  predicate Present(h: Head, a: Addition)
  {
    match a
    case LinkAddition(rel, href, _) => href == "" || Has(h, "link", LinkKey(rel, href))
    case MetaAddition(n, content, isProp) => content == "" || Has(h, "meta", MetaKey(n, isProp))
  }

  /** The extra attributes of a link addition do not rename it. */
  predicate WellFormed(a: Addition)
  {
    a.LinkAddition? ==> "rel" !in KeysOf(a.extra) && "href" !in KeysOf(a.extra)
  }

  lemma PresentExtends(h: Head, r: Head, a: Addition)
    requires Extends(h, r) && Present(h, a)
    ensures Present(r, a)
  {
    match a
    case LinkAddition(rel, href, _) =>
      if href != "" { FindExtends(h, r, "link", LinkKey(rel, href)); }
    case MetaAddition(n, content, isProp) =>
      if content != "" { FindExtends(h, r, "meta", MetaKey(n, isProp)); }
  }

  function ApplyAll(h: Head, adds: seq<Addition>): (r: Head)
    ensures Extends(h, r)
    decreases |adds|
  {
    if adds == [] then h
    else
      var h1 := Apply(h, adds[0]);
      var r := ApplyAll(h1, adds[1..]);
      assert r[..|h|] == r[..|h1|][..|h|];
      r
  }

  /** After applying a list of well-formed additions, each of them finds its element. */
  lemma {:induction false} ApplyAllPresent(h: Head, adds: seq<Addition>)
    requires forall i | 0 <= i < |adds| :: WellFormed(adds[i])
    ensures forall i | 0 <= i < |adds| :: Present(ApplyAll(h, adds), adds[i])
    decreases |adds|
  {
    if adds != [] {
      var h1 := Apply(h, adds[0]);
      ApplyAllPresent(h1, adds[1..]);
      PresentExtends(h1, ApplyAll(h1, adds[1..]), adds[0]);
      forall i | 1 <= i < |adds| ensures Present(ApplyAll(h, adds), adds[i]) {
        assert adds[i] == adds[1..][i - 1];
      }
    }
  }

  /** Additions whose elements are all present leave the head as it is. */
  lemma {:induction false} ApplyAllPresentIsNoop(h: Head, adds: seq<Addition>)
    requires forall i | 0 <= i < |adds| :: Present(h, adds[i])
    ensures ApplyAll(h, adds) == h
    decreases |adds|
  {
    if adds != [] {
      assert Apply(h, adds[0]) == h;
      ApplyAllPresentIsNoop(h, adds[1..]);
    }
  }

  const FontsCssUrl: string :=
    "https://fonts.googleapis.com/css2?family=Playfair+Display:wght@600;700;800&family=Open+Sans:wght@400;600;700;800&display=swap"

  /** The links and metas the script adds after the header stylesheet, in order. */
  const BootAdditions: seq<Addition> := [
    LinkAddition("preconnect", "https://fonts.googleapis.com", []),
    LinkAddition("preconnect", "https://fonts.gstatic.com", [("crossorigin", "")]),
    LinkAddition("stylesheet", FontsCssUrl, []),
    LinkAddition("icon", "/favicon.ico", []),
    LinkAddition("icon", "/favicon.svg", [("type", "image/svg+xml")]),
    LinkAddition("apple-touch-icon", "/apple-touch-icon.png", []),
    LinkAddition("manifest", "/site.webmanifest", []),
    MetaAddition("theme-color", "#0d5925", false),
    MetaAddition("og:site_name", "Mindo Bird Watching", true),
    MetaAddition("og:type", "website", true),
    MetaAddition("og:image", "/assets/images/og/og-default-1200x630.jpg", true),
    MetaAddition("msapplication-TileColor", "#C7DAAC", false)
  ]

  lemma BootAdditionsWellFormed()
    ensures forall i | 0 <= i < |BootAdditions| :: WellFormed(BootAdditions[i])
  {
    var c := [("crossorigin", "")];
    var t := [("type", "image/svg+xml")];
    assert forall i | 0 <= i < |c| :: c[i].0 == "crossorigin";
    assert forall i | 0 <= i < |t| :: t[i].0 == "type";
  }

  /** The head after the script's insertions (analytics and click tracking aside): the
      header stylesheet first, then every addition in order. The original elements stay
      where they were, and every addition finds its element. */
  function Boot(h: Head): (r: Head)
    ensures |r| >= |h|
    ensures Extends(InjectHeaderCss(h), r)
    ensures forall i | 0 <= i < |BootAdditions| :: Present(r, BootAdditions[i])
  {
    BootAdditionsWellFormed();
    ApplyAllPresent(InjectHeaderCss(h), BootAdditions);
    ApplyAll(InjectHeaderCss(h), BootAdditions)
  }

  /** Loading the script a second time on the same head adds and changes nothing. */
  lemma BootIdempotent(h: Head)
    ensures Boot(Boot(h)) == Boot(h)
  {
    var i := InjectHeaderCss(h);
    var r := Boot(h);
    FirstHeaderCssExtends(i, r);
    assert r[FirstHeaderCss(i).value] == i[FirstHeaderCss(i).value];
    InjectHeaderCssSettled(r);
    ApplyAllPresentIsNoop(r, BootAdditions);
  }
}
