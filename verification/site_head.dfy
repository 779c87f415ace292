/** The public site's head script: keyed upserts of `<meta>` and `<link>` elements for the
    favicons, manifest, theme colours and Open Graph defaults. */
module SiteHead {
  import opened Wrappers
  import opened Dom

  const Theme: string := "#0d5925"
  const OgDefaultImage: string := "/assets/images/og/og-default-1200x630.jpg"
  const SiteName: string := "Mindo Bird Watching"
  const DefaultDescription: string := "Private birding tours in Mindo, Ecuador."

  /** The element `head.querySelector` returns for the selector. */
  function FoundAt(h: Head, tag: string, sel: map<string, string>): Element
    requires Has(h, tag, sel)
  {
    h[Find(h, tag, sel).value]
  }

  predicate AttrIs(e: Element, k: string, v: string)
  {
    k in e.attrs && e.attrs[k] == v
  }

  /** The first `meta[attrName="attrValue"]` exists and has `content`. */
  predicate MetaContent(h: Head, attrName: string, attrValue: string, content: string)
  {
    Has(h, "meta", map[attrName := attrValue]) && AttrIs(FoundAt(h, "meta", map[attrName := attrValue]), "content", content)
  }

  /** The first link under the selector exists and has `href`. */
  predicate LinkHref(h: Head, sel: map<string, string>, href: string)
  {
    Has(h, "link", sel) && AttrIs(FoundAt(h, "link", sel), "href", href)
  }

  /** `r` answers the selector with the same element, at the same place, as `h`. */
  predicate Kept(h: Head, r: Head, tag: string, sel: map<string, string>)
  {
    Has(h, tag, sel) ==> Has(r, tag, sel) && Find(r, tag, sel) == Find(h, tag, sel) && FoundAt(r, tag, sel) == FoundAt(h, tag, sel)
  }

  /** The script only ever touches `<meta>` and `<link>` elements: every other element
      stays as it was, in place, and no element changes its tag. */
  predicate Frame(h: Head, r: Head)
  {
    |h| <= |r| && forall j | 0 <= j < |h| :: r[j].tag == h[j].tag && (h[j].tag != "meta" && h[j].tag != "link" ==> r[j] == h[j])
  }

  lemma FrameTrans(a: Head, b: Head, c: Head)
    requires Frame(a, b) && Frame(b, c)
    ensures Frame(a, c)
  {
  }

  lemma UpsertFrame(h: Head, tag: string, sel: map<string, string>, k: string, v: string)
    requires tag == "meta" || tag == "link"
    ensures Frame(h, Upsert(h, tag, sel, k, v))
  {
    var i := UpsertIndex(h, tag, sel);
    if i < |h| {
      assert Matches(h[i], tag, sel);
    }
  }

  lemma ExtendsFrame(h: Head, r: Head)
    requires Extends(h, r)
    ensures Frame(h, r)
  {
    assert forall j | 0 <= j < |h| :: r[j] == r[..|h|][j];
  }

  /** `upsertMeta(attrName, attrValue, content)`: afterwards the first
      `meta[attrName="attrValue"]` holds `content`, at most one element was appended, and
      every other element is as it was. */
  function UpsertMeta(h: Head, attrName: string, attrValue: string, content: string): (r: Head)
    requires attrName != "content"
    ensures |r| == if Has(h, "meta", map[attrName := attrValue]) then |h| else |h| + 1
    ensures MetaContent(r, attrName, attrValue, content)
    ensures var sel := map[attrName := attrValue];
            forall j | 0 <= j < |h| && j != Find(r, "meta", sel).value :: r[j] == h[j]
    ensures Frame(h, r)
  {
    var sel := map[attrName := attrValue];
    UpsertFinds(h, "meta", sel, "content", content);
    UpsertFrame(h, "meta", sel, "content", content);
    Upsert(h, "meta", sel, "content", content)
  }

  /** Upserting the same meta twice gives the head of upserting it once. */
  lemma UpsertMetaIdempotent(h: Head, attrName: string, attrValue: string, content: string)
    requires attrName != "content"
    ensures UpsertMeta(UpsertMeta(h, attrName, attrValue, content), attrName, attrValue, content)
            == UpsertMeta(h, attrName, attrValue, content)
  {
    UpsertIdempotent(h, "meta", map[attrName := attrValue], "content", content);
  }

  /** A meta upsert keeps the first match of any selector not mentioning `content` whose
      element the upsert does not target. */
  lemma UpsertMetaKept(h: Head, attrName: string, attrValue: string, content: string, tag: string, sel: map<string, string>)
    requires attrName != "content" && "content" !in sel
    requires Has(h, tag, sel) ==> !Matches(FoundAt(h, tag, sel), "meta", map[attrName := attrValue])
    ensures Kept(h, UpsertMeta(h, attrName, attrValue, content), tag, sel)
  {
    if Has(h, tag, sel) {
      UpsertPreserves(h, "meta", map[attrName := attrValue], "content", content, tag, sel);
    }
  }

  /** Upserting one value of an attribute keeps the first element carrying another value of
      it in place and unchanged. */
  lemma UpsertMetaKeepsOtherValue(h: Head, attrName: string, v: string, v': string, content: string)
    requires attrName != "content" && v != v'
    requires Has(h, "meta", map[attrName := v])
    ensures var r := UpsertMeta(h, attrName, v', content);
            var j := Find(h, "meta", map[attrName := v]).value;
            Find(r, "meta", map[attrName := v]) == Some(j) && r[j] == h[j]
  {
    var j := Find(h, "meta", map[attrName := v]).value;
    assert h[j].attrs[attrName] == v;
    UpsertPreserves(h, "meta", map[attrName := v'], "content", content, "meta", map[attrName := v]);
  }

  /** The selector `upsertLink` uses: `rel`, plus `sizes` and `type` when given. */
  function LinkSelector(rel: string, sizes: string, typ: string): (sel: map<string, string>)
    ensures "rel" in sel && sel["rel"] == rel && "href" !in sel
    ensures "sizes" in sel <==> sizes != ""
    ensures "type" in sel <==> typ != ""
    ensures sizes != "" ==> sel["sizes"] == sizes
    ensures typ != "" ==> sel["type"] == typ
    ensures sel.Keys <= {"rel", "sizes", "type"}
  {
    var s := map["rel" := rel];
    var s := if sizes != "" then s["sizes" := sizes] else s;
    if typ != "" then s["type" := typ] else s
  }

  /** `upsertLink(rel, href, {sizes, type})`: afterwards the first link under the selector
      has `href`, at most one element was appended, and every other element is as it was. */
  function UpsertLink(h: Head, rel: string, href: string, sizes: string, typ: string): (r: Head)
    ensures |r| == if Has(h, "link", LinkSelector(rel, sizes, typ)) then |h| else |h| + 1
    ensures LinkHref(r, LinkSelector(rel, sizes, typ), href)
    ensures var sel := LinkSelector(rel, sizes, typ);
            forall j | 0 <= j < |h| && j != Find(r, "link", sel).value :: r[j] == h[j]
    ensures Frame(h, r)
  {
    var sel := LinkSelector(rel, sizes, typ);
    UpsertFinds(h, "link", sel, "href", href);
    UpsertFrame(h, "link", sel, "href", href);
    Upsert(h, "link", sel, "href", href)
  }

  lemma UpsertLinkIdempotent(h: Head, rel: string, href: string, sizes: string, typ: string)
    ensures UpsertLink(UpsertLink(h, rel, href, sizes, typ), rel, href, sizes, typ) == UpsertLink(h, rel, href, sizes, typ)
  {
    UpsertIdempotent(h, "link", LinkSelector(rel, sizes, typ), "href", href);
  }

  /** A link upsert keeps the first link of any other `rel` in place and unchanged. */
  lemma UpsertLinkKept(h: Head, rel: string, href: string, sizes: string, typ: string, sel: map<string, string>)
    requires "rel" in sel && sel["rel"] != rel && "href" !in sel
    ensures Kept(h, UpsertLink(h, rel, href, sizes, typ), "link", sel)
  {
    if Has(h, "link", sel) {
      var i := Find(h, "link", sel).value;
      assert h[i].attrs["rel"] != rel;
      UpsertPreserves(h, "link", LinkSelector(rel, sizes, typ), "href", href, "link", sel);
    }
  }

  /** `if (!head.querySelector('meta[property="p"]')) upsertMeta("property", p, content)`. */
  function SetMetaIfAbsent(h: Head, prop: string, content: string): (r: Head)
    ensures Has(h, "meta", map["property" := prop]) ==> r == h
    ensures !Has(h, "meta", map["property" := prop])
            ==> r == h + [Element("meta", map["property" := prop, "content" := content])]
    ensures !Has(h, "meta", map["property" := prop]) ==> MetaContent(r, "property", prop, content)
    ensures Extends(h, r)
  {
    if Has(h, "meta", map["property" := prop]) then h
    else
      var r := UpsertMeta(h, "property", prop, content);
      assert r[..|h|] == h;
      r
  }

  const IcoSelector: map<string, string> := LinkSelector("icon", "any", "")
  const SvgSelector: map<string, string> := LinkSelector("icon", "", "image/svg+xml")
  const AppleSelector: map<string, string> := LinkSelector("apple-touch-icon", "", "")
  const ManifestSelector: map<string, string> := LinkSelector("manifest", "", "")

  /** The favicon and manifest links as the script leaves them. The `.ico` link keeps its
      href unless the page's own link also matches the SVG selector (it carries both
      `sizes="any"` and the SVG type): the second upsert then rewrites that same link. */
  predicate IconsSet(h: Head)
  {
    && Has(h, "link", IcoSelector)
    && (AttrIs(FoundAt(h, "link", IcoSelector), "href", "/favicon.ico") || Matches(FoundAt(h, "link", IcoSelector), "link", SvgSelector))
    && LinkHref(h, SvgSelector, "/favicon.svg")
    && LinkHref(h, AppleSelector, "/apple-touch-icon.png")
    && LinkHref(h, ManifestSelector, "/site.webmanifest")
  }

  /** Whatever `r` keeps of `h`'s icon links, it keeps their facts. */
  lemma IconsKept(h: Head, r: Head)
    requires IconsSet(h)
    requires Kept(h, r, "link", IcoSelector) && Kept(h, r, "link", SvgSelector)
    requires Kept(h, r, "link", AppleSelector) && Kept(h, r, "link", ManifestSelector)
    ensures IconsSet(r)
  {
  }

  /** The SVG upsert keeps the `.ico` link first; it rewrites it only when that link is also
      an SVG icon link. */
  lemma SvgUpsertKeepsIco(h: Head)
    requires Has(h, "link", IcoSelector)
    requires AttrIs(FoundAt(h, "link", IcoSelector), "href", "/favicon.ico")
    ensures var r := UpsertLink(h, "icon", "/favicon.svg", "", "image/svg+xml");
            Has(r, "link", IcoSelector)
            && (AttrIs(FoundAt(r, "link", IcoSelector), "href", "/favicon.ico") || Matches(FoundAt(r, "link", IcoSelector), "link", SvgSelector))
  {
    var r := UpsertLink(h, "icon", "/favicon.svg", "", "image/svg+xml");
    var i := Find(h, "link", IcoSelector).value;
    if !Matches(h[i], "link", SvgSelector) {
      UpsertPreserves(h, "link", SvgSelector, "href", "/favicon.svg", "link", IcoSelector);
    } else {
      UpsertKeepsFirst(h, "link", SvgSelector, "href", "/favicon.svg", "link", IcoSelector);
      MatchesAgreeExcept(h[i], r[i], "href", "link", SvgSelector);
    }
  }

  /** The favicons and the manifest. */
  function Icons(h: Head): (r: Head)
    ensures |r| >= |h|
    ensures IconsSet(r)
    ensures Frame(h, r)
  {
    var h1 := UpsertLink(h, "icon", "/favicon.ico", "any", "");
    var h2 := UpsertLink(h1, "icon", "/favicon.svg", "", "image/svg+xml");
    SvgUpsertKeepsIco(h1);
    var h3 := UpsertLink(h2, "apple-touch-icon", "/apple-touch-icon.png", "", "");
    UpsertLinkKept(h2, "apple-touch-icon", "/apple-touch-icon.png", "", "", IcoSelector);
    UpsertLinkKept(h2, "apple-touch-icon", "/apple-touch-icon.png", "", "", SvgSelector);
    var r := UpsertLink(h3, "manifest", "/site.webmanifest", "", "");
    UpsertLinkKept(h3, "manifest", "/site.webmanifest", "", "", IcoSelector);
    UpsertLinkKept(h3, "manifest", "/site.webmanifest", "", "", SvgSelector);
    UpsertLinkKept(h3, "manifest", "/site.webmanifest", "", "", AppleSelector);
    FrameTrans(h, h1, h2);
    FrameTrans(h, h2, h3);
    FrameTrans(h, h3, r);
    r
  }

  /** A meta upsert never touches a link. */
  lemma UpsertMetaKeptLink(h: Head, attrName: string, attrValue: string, content: string, sel: map<string, string>)
    requires attrName != "content" && "content" !in sel
    ensures Kept(h, UpsertMeta(h, attrName, attrValue, content), "link", sel)
  {
    if Has(h, "link", sel) {
      assert FoundAt(h, "link", sel).tag == "link";
      UpsertMetaKept(h, attrName, attrValue, content, "link", sel);
    }
  }

  /** A meta upsert keeps every icon link. */
  lemma UpsertMetaKeepsIcons(h: Head, attrName: string, attrValue: string, content: string)
    requires attrName != "content"
    ensures IconsSet(h) ==> IconsSet(UpsertMeta(h, attrName, attrValue, content))
  {
    var r := UpsertMeta(h, attrName, attrValue, content);
    UpsertMetaKeptLink(h, attrName, attrValue, content, IcoSelector);
    UpsertMetaKeptLink(h, attrName, attrValue, content, SvgSelector);
    UpsertMetaKeptLink(h, attrName, attrValue, content, AppleSelector);
    UpsertMetaKeptLink(h, attrName, attrValue, content, ManifestSelector);
    if IconsSet(h) {
      IconsKept(h, r);
    }
  }

  /** The theme colour under the name `v` as the rest of the script leaves it: the first
      `meta[name=v]` has the theme colour, unless that element also carries a `property`
      attribute, which a later Open Graph upsert may have rewritten. */
  predicate ThemeColor(h: Head, v: string)
  {
    Has(h, "meta", map["name" := v])
    && (AttrIs(FoundAt(h, "meta", map["name" := v]), "content", Theme) || "property" in FoundAt(h, "meta", map["name" := v]).attrs)
  }

  predicate ThemeColors(h: Head)
  {
    ThemeColor(h, "theme-color") && ThemeColor(h, "msapplication-TileColor")
  }

  /** A property upsert keeps a named meta first, and keeps any `property` it carries. */
  lemma PropertyUpsertKeepsNamed(h: Head, p: string, c: string, v: string)
    requires Has(h, "meta", map["name" := v])
    ensures var r := UpsertMeta(h, "property", p, c);
            var i := Find(h, "meta", map["name" := v]).value;
            Find(r, "meta", map["name" := v]) == Some(i) && ("property" in h[i].attrs ==> "property" in r[i].attrs)
  {
    var r := UpsertMeta(h, "property", p, c);
    var i := Find(h, "meta", map["name" := v]).value;
    UpsertKeepsFirst(h, "meta", map["property" := p], "content", c, "meta", map["name" := v]);
    if "property" in h[i].attrs {
      assert "property" in h[i].attrs - {"content"};
      assert "property" in r[i].attrs - {"content"};
    }
  }

  /** A property upsert keeps a theme colour: it can only reach a named meta that also
      carries a property. */
  lemma PropertyUpsertKeepsTheme(h: Head, p: string, c: string, v: string)
    requires ThemeColor(h, v)
    ensures ThemeColor(UpsertMeta(h, "property", p, c), v)
  {
    var sel := map["name" := v];
    var i := Find(h, "meta", sel).value;
    if "property" !in h[i].attrs {
      UpsertMetaKept(h, "property", p, c, "meta", sel);
    } else {
      PropertyUpsertKeepsNamed(h, p, c, v);
    }
  }

  lemma PropertyUpsertKeepsThemes(h: Head, p: string, c: string)
    ensures ThemeColors(h) ==> ThemeColors(UpsertMeta(h, "property", p, c))
  {
    if !ThemeColors(h) { return; }
    PropertyUpsertKeepsTheme(h, p, c, "theme-color");
    PropertyUpsertKeepsTheme(h, p, c, "msapplication-TileColor");
  }

  /** The theme colour is written under both of its names. */
  function Colors(h: Head): (r: Head)
    ensures |r| >= |h|
    ensures MetaContent(r, "name", "theme-color", Theme)
    ensures MetaContent(r, "name", "msapplication-TileColor", Theme)
    ensures IconsSet(h) ==> IconsSet(r)
    ensures Frame(h, r)
  {
    var h1 := UpsertMeta(h, "name", "theme-color", Theme);
    UpsertMetaKeepsOtherValue(h1, "name", "theme-color", "msapplication-TileColor", Theme);
    var r := UpsertMeta(h1, "name", "msapplication-TileColor", Theme);
    UpsertMetaKeepsIcons(h, "name", "theme-color", Theme);
    UpsertMetaKeepsIcons(h1, "name", "msapplication-TileColor", Theme);
    FrameTrans(h, h1, r);
    r
  }

  /** The site-wide Open Graph values the script always writes. */
  predicate OgBaseSet(h: Head, canonical: string)
  {
    && MetaContent(h, "property", "og:site_name", SiteName)
    && MetaContent(h, "property", "og:type", "website")
    && MetaContent(h, "property", "og:url", canonical)
  }

  /** Upserting a property other than `p` keeps the first meta of `p` as it was. */
  lemma OtherPropertyKept(h: Head, p: string, p': string, c: string)
    requires p != p'
    ensures Kept(h, UpsertMeta(h, "property", p', c), "meta", map["property" := p])
  {
    if Has(h, "meta", map["property" := p]) {
      UpsertMetaKeepsOtherValue(h, "property", p, p', c);
    }
  }

  /** A later property upsert keeps the site-wide values. */
  lemma PropertyUpsertKeepsOgBase(h: Head, p: string, c: string, canonical: string)
    requires p != "og:site_name" && p != "og:type" && p != "og:url"
    requires OgBaseSet(h, canonical)
    ensures OgBaseSet(UpsertMeta(h, "property", p, c), canonical)
  {
    OtherPropertyKept(h, "og:site_name", p, c);
    OtherPropertyKept(h, "og:type", p, c);
    OtherPropertyKept(h, "og:url", p, c);
  }

  function OgBase(h: Head, canonical: string): (r: Head)
    ensures |r| >= |h|
    ensures OgBaseSet(r, canonical)
    ensures IconsSet(h) ==> IconsSet(r)
    ensures ThemeColors(h) ==> ThemeColors(r)
    ensures Frame(h, r)
  {
    var h1 := UpsertMeta(h, "property", "og:site_name", SiteName);
    var h2 := UpsertMeta(h1, "property", "og:type", "website");
    OtherPropertyKept(h1, "og:site_name", "og:type", "website");
    var r := UpsertMeta(h2, "property", "og:url", canonical);
    OtherPropertyKept(h2, "og:site_name", "og:url", canonical);
    OtherPropertyKept(h2, "og:type", "og:url", canonical);
    UpsertMetaKeepsIcons(h, "property", "og:site_name", SiteName);
    UpsertMetaKeepsIcons(h1, "property", "og:type", "website");
    UpsertMetaKeepsIcons(h2, "property", "og:url", canonical);
    PropertyUpsertKeepsThemes(h, "og:site_name", SiteName);
    PropertyUpsertKeepsThemes(h1, "og:type", "website");
    PropertyUpsertKeepsThemes(h2, "og:url", canonical);
    FrameTrans(h, h1, h2);
    FrameTrans(h, h2, r);
    r
  }

  function Prop(p: string): map<string, string>
  {
    map["property" := p]
  }

  /** Appending elements keeps the first match of every selector. */
  lemma ExtendsKept(h: Head, r: Head, tag: string, sel: map<string, string>)
    requires Extends(h, r)
    ensures Kept(h, r, tag, sel)
  {
    if Has(h, tag, sel) {
      FindExtends(h, r, tag, sel);
      assert r[Find(h, tag, sel).value] == r[..|h|][Find(h, tag, sel).value];
    }
  }

  /** Appending elements keeps every fact the script established. */
  lemma ExtendsKeeps(h: Head, r: Head, canonical: string)
    requires Extends(h, r)
    ensures IconsSet(h) ==> IconsSet(r)
    ensures ThemeColors(h) ==> ThemeColors(r)
    ensures OgBaseSet(h, canonical) ==> OgBaseSet(r, canonical)
  {
    ExtendsKept(h, r, "link", IcoSelector);
    ExtendsKept(h, r, "link", SvgSelector);
    ExtendsKept(h, r, "link", AppleSelector);
    ExtendsKept(h, r, "link", ManifestSelector);
    if IconsSet(h) {
      IconsKept(h, r);
    }
    ExtendsKept(h, r, "meta", map["name" := "theme-color"]);
    ExtendsKept(h, r, "meta", map["name" := "msapplication-TileColor"]);
    ExtendsKept(h, r, "meta", map["property" := "og:site_name"]);
    ExtendsKept(h, r, "meta", map["property" := "og:type"]);
    ExtendsKept(h, r, "meta", map["property" := "og:url"]);
  }

  /** `document.title || SITE_NAME`. */
  function DefaultTitle(title: string): string
  {
    if title == "" then SiteName else title
  }

  /** Where `h` has no `og:title`, `og:description` or `og:image`, `r` carries the default
      the script writes for it. */
  predicate DefaultsWritten(h: Head, r: Head, title: string)
  {
    && (!Has(h, "meta", Prop("og:title")) ==> MetaContent(r, "property", "og:title", DefaultTitle(title)))
    && (!Has(h, "meta", Prop("og:description")) ==> MetaContent(r, "property", "og:description", DefaultDescription))
    && (!Has(h, "meta", Prop("og:image")) ==> MetaContent(r, "property", "og:image", OgDefaultImage))
  }

  /** Title, description and image are only filled in where the page has none, with the
      document title (or the site name), the fixed description and the default image; a
      page's own element stays first and stays as it was. */
  function OgDefaults(h: Head, title: string): (r: Head)
    ensures DefaultsWritten(h, r, title)
    ensures Extends(h, r)
    ensures Has(r, "meta", Prop("og:title")) && Has(r, "meta", Prop("og:description")) && Has(r, "meta", Prop("og:image"))
    ensures OwnKept(h, r, "og:title") && OwnKept(h, r, "og:description") && OwnKept(h, r, "og:image")
  {
    var h1 := SetMetaIfAbsent(h, "og:title", DefaultTitle(title));
    var h2 := SetMetaIfAbsent(h1, "og:description", DefaultDescription);
    var r := SetMetaIfAbsent(h2, "og:image", OgDefaultImage);
    DefaultsWrite(h, h1, h2, r, title);
    DefaultsKeepOwn(h, h1, h2, r, title);
    r
  }

  /** The three fill-ins in order only append, and each leaves the page's own element for
      every property in place. */
  lemma DefaultsKeepOwn(h: Head, h1: Head, h2: Head, r: Head, title: string)
    requires h1 == SetMetaIfAbsent(h, "og:title", DefaultTitle(title))
    requires h2 == SetMetaIfAbsent(h1, "og:description", DefaultDescription)
    requires r == SetMetaIfAbsent(h2, "og:image", OgDefaultImage)
    ensures Extends(h, r)
    ensures Has(r, "meta", Prop("og:title")) && Has(r, "meta", Prop("og:description")) && Has(r, "meta", Prop("og:image"))
    ensures OwnKept(h, r, "og:title") && OwnKept(h, r, "og:description") && OwnKept(h, r, "og:image")
  {
    KeepsOtherProperty(h, "og:title", DefaultTitle(title));
    KeepsOtherProperty(h1, "og:description", DefaultDescription);
    KeepsOtherProperty(h2, "og:image", OgDefaultImage);
    ExtendsTrans(h, h1, h2);
    ExtendsTrans(h, h2, r);
    OwnKeptThrough(h, h1, h2, r, DefaultTitle(title), "og:title");
    OwnKeptThrough(h, h1, h2, r, DefaultTitle(title), "og:description");
    OwnKeptThrough(h, h1, h2, r, DefaultTitle(title), "og:image");
  }

  /** The page's own first `meta[property="p"]` stays where it was and as it was. */
  predicate OwnKept(h: Head, r: Head, p: string)
  {
    Has(h, "meta", Prop(p)) ==>
      Find(r, "meta", Prop(p)) == Find(h, "meta", Prop(p)) && r[Find(h, "meta", Prop(p)).value] == h[Find(h, "meta", Prop(p)).value]
  }

  lemma OwnKeptThrough(h: Head, h1: Head, h2: Head, r: Head, title: string, p: string)
    requires h1 == SetMetaIfAbsent(h, "og:title", title)
    requires h2 == SetMetaIfAbsent(h1, "og:description", DefaultDescription)
    requires r == SetMetaIfAbsent(h2, "og:image", OgDefaultImage)
    ensures OwnKept(h, r, p)
  {
    if Has(h, "meta", Prop(p)) {
      SetMetaIfAbsentKeepsOwn(h, "og:title", title, p);
      SetMetaIfAbsentKeepsOwn(h1, "og:description", DefaultDescription, p);
      SetMetaIfAbsentKeepsOwn(h2, "og:image", OgDefaultImage, p);
    }
  }

  /** A fill-in never disturbs an element that is already first for its property. */
  lemma SetMetaIfAbsentKeepsOwn(h: Head, prop: string, content: string, p: string)
    requires Has(h, "meta", Prop(p))
    ensures var r := SetMetaIfAbsent(h, prop, content);
            Has(r, "meta", Prop(p)) && OwnKept(h, r, p)
  {
    ExtendsKept(h, SetMetaIfAbsent(h, prop, content), "meta", Prop(p));
  }

  /** The three fill-ins in order write each default the page lacked, and the later ones
      leave the earlier ones' elements alone. */
  lemma DefaultsWrite(h: Head, h1: Head, h2: Head, r: Head, title: string)
    requires h1 == SetMetaIfAbsent(h, "og:title", DefaultTitle(title))
    requires h2 == SetMetaIfAbsent(h1, "og:description", DefaultDescription)
    requires r == SetMetaIfAbsent(h2, "og:image", OgDefaultImage)
    ensures DefaultsWritten(h, r, title)
  {
    ExtendsKept(h1, h2, "meta", Prop("og:title"));
    ExtendsKept(h2, r, "meta", Prop("og:title"));
    ExtendsKept(h2, r, "meta", Prop("og:description"));
    if !Has(h, "meta", Prop("og:description")) {
      SetMetaIfAbsentAddsNoOther(h, "og:title", DefaultTitle(title), "og:description");
    }
    if !Has(h, "meta", Prop("og:image")) {
      SetMetaIfAbsentAddsNoOther(h, "og:title", DefaultTitle(title), "og:image");
      SetMetaIfAbsentAddsNoOther(h1, "og:description", DefaultDescription, "og:image");
    }
  }

  /** Filling in one property creates no element for another. */
  lemma SetMetaIfAbsentAddsNoOther(h: Head, prop: string, content: string, p: string)
    requires p != prop && !Has(h, "meta", Prop(p))
    ensures !Has(SetMetaIfAbsent(h, prop, content), "meta", Prop(p))
  {
    if !Has(h, "meta", Prop(prop)) {
      UpsertMetaAddsNoProperty(h, "property", prop, content, p);
    }
  }

  /** A meta upsert keyed on anything but `property="p"` creates no `meta[property="p"]`. */
  lemma UpsertMetaAddsNoProperty(h: Head, attrName: string, attrValue: string, content: string, p: string)
    requires attrName != "content" && (attrName == "property" ==> attrValue != p)
    requires !Has(h, "meta", Prop(p))
    ensures !Has(UpsertMeta(h, attrName, attrValue, content), "meta", Prop(p))
  {
    var sel := map[attrName := attrValue];
    var e := Element("meta", sel["content" := content]);
    assert !Matches(e, "meta", Prop(p)) by {
      assert "property" in Prop(p) && Prop(p)["property"] == p;
    }
    UpsertAddsNoMatch(h, "meta", sel, "content", content, "meta", Prop(p));
  }

  /** A link upsert creates no meta. */
  lemma UpsertLinkAddsNoMeta(h: Head, rel: string, href: string, sizes: string, typ: string, p: string)
    requires !Has(h, "meta", Prop(p))
    ensures !Has(UpsertLink(h, rel, href, sizes, typ), "meta", Prop(p))
  {
    UpsertAddsNoMatch(h, "link", LinkSelector(rel, sizes, typ), "href", href, "meta", Prop(p));
  }

  /** No phase before the defaults creates a `meta[property="p"]` for a `p` it does not set. */
  lemma IconsAddNoProperty(h: Head, p: string)
    requires !Has(h, "meta", Prop(p))
    ensures !Has(Icons(h), "meta", Prop(p))
  {
    var h1 := UpsertLink(h, "icon", "/favicon.ico", "any", "");
    var h2 := UpsertLink(h1, "icon", "/favicon.svg", "", "image/svg+xml");
    var h3 := UpsertLink(h2, "apple-touch-icon", "/apple-touch-icon.png", "", "");
    UpsertLinkAddsNoMeta(h, "icon", "/favicon.ico", "any", "", p);
    UpsertLinkAddsNoMeta(h1, "icon", "/favicon.svg", "", "image/svg+xml", p);
    UpsertLinkAddsNoMeta(h2, "apple-touch-icon", "/apple-touch-icon.png", "", "", p);
    UpsertLinkAddsNoMeta(h3, "manifest", "/site.webmanifest", "", "", p);
  }

  lemma ColorsAddNoProperty(h: Head, p: string)
    requires !Has(h, "meta", Prop(p))
    ensures !Has(Colors(h), "meta", Prop(p))
  {
    UpsertMetaAddsNoProperty(h, "name", "theme-color", Theme, p);
    UpsertMetaAddsNoProperty(UpsertMeta(h, "name", "theme-color", Theme), "name", "msapplication-TileColor", Theme, p);
  }

  lemma OgBaseAddsNoProperty(h: Head, canonical: string, p: string)
    requires p != "og:site_name" && p != "og:type" && p != "og:url"
    requires !Has(h, "meta", Prop(p))
    ensures !Has(OgBase(h, canonical), "meta", Prop(p))
  {
    var h1 := UpsertMeta(h, "property", "og:site_name", SiteName);
    var h2 := UpsertMeta(h1, "property", "og:type", "website");
    UpsertMetaAddsNoProperty(h, "property", "og:site_name", SiteName, p);
    UpsertMetaAddsNoProperty(h1, "property", "og:type", "website", p);
    UpsertMetaAddsNoProperty(h2, "property", "og:url", canonical, p);
  }

  /** The page's own title, description and image elements are what decide the defaults:
      the icon, colour and base phases create none of them. */
  lemma PhasesAddNoDefault(h: Head, canonical: string, p: string)
    requires p != "og:site_name" && p != "og:type" && p != "og:url"
    requires !Has(h, "meta", Prop(p))
    ensures !Has(OgBase(Colors(Icons(h)), canonical), "meta", Prop(p))
  {
    IconsAddNoProperty(h, p);
    ColorsAddNoProperty(Icons(h), p);
    OgBaseAddsNoProperty(Colors(Icons(h)), canonical, p);
  }

  /** Filling in one property keeps the first element of every other property in place. */
  lemma KeepsOtherProperty(h: Head, prop: string, content: string)
    ensures var r := SetMetaIfAbsent(h, prop, content);
            Has(r, "meta", Prop(prop))
            && forall p | p != prop && Has(h, "meta", Prop(p)) ::
                 Find(r, "meta", Prop(p)) == Find(h, "meta", Prop(p)) && r[Find(h, "meta", Prop(p)).value] == h[Find(h, "meta", Prop(p)).value]
  {
    var r := SetMetaIfAbsent(h, prop, content);
    forall p | p != prop && Has(h, "meta", Prop(p))
      ensures Find(r, "meta", Prop(p)) == Find(h, "meta", Prop(p)) && r[Find(h, "meta", Prop(p)).value] == h[Find(h, "meta", Prop(p)).value]
    {
      if !Has(h, "meta", Prop(prop)) {
        UpsertMetaKeepsOtherValue(h, "property", p, prop, content);
      }
    }
    if !Has(h, "meta", Prop(prop)) {
      assert Matches(r[|h|], "meta", Prop(prop));
    }
  }

  /** The image size is always forced to 1200 by 630. */
  function OgImageSize(h: Head): (r: Head)
    ensures |r| >= |h|
    ensures MetaContent(r, "property", "og:image:width", "1200")
    ensures MetaContent(r, "property", "og:image:height", "630")
  {
    var h1 := UpsertMeta(h, "property", "og:image:width", "1200");
    UpsertMetaKeepsOtherValue(h1, "property", "og:image:width", "og:image:height", "630");
    UpsertMeta(h1, "property", "og:image:height", "630")
  }

  /** Forcing the image size keeps every other property present. */
  lemma OgImageSizeKeeps(h: Head, p: string)
    requires p != "og:image:width" && p != "og:image:height"
    requires Has(h, "meta", Prop(p))
    ensures Has(OgImageSize(h), "meta", Prop(p))
    ensures FoundAt(OgImageSize(h), "meta", Prop(p)) == FoundAt(h, "meta", Prop(p))
  {
    var h1 := UpsertMeta(h, "property", "og:image:width", "1200");
    UpsertMetaKeepsOtherValue(h, "property", p, "og:image:width", "1200");
    UpsertMetaKeepsOtherValue(h1, "property", p, "og:image:height", "630");
  }

  /** The defaults written where the page lacked them survive the image-size phase. */
  lemma OgImageSizeKeepsDefaults(h: Head, r: Head, title: string)
    requires DefaultsWritten(h, r, title)
    ensures DefaultsWritten(h, OgImageSize(r), title)
  {
    if !Has(h, "meta", Prop("og:title")) {
      OgImageSizeKeeps(r, "og:title");
    }
    if !Has(h, "meta", Prop("og:description")) {
      OgImageSizeKeeps(r, "og:description");
    }
    if !Has(h, "meta", Prop("og:image")) {
      OgImageSizeKeeps(r, "og:image");
    }
  }

  /** Every default the page lacked is written by the whole run: the earlier phases create
      no title, description or image, and the image-size phase keeps them. */
  lemma PhasesWriteDefaults(h: Head, title: string, canonical: string)
    ensures DefaultsWritten(h, OgImageSize(OgDefaults(OgBase(Colors(Icons(h)), canonical), title)), title)
  {
    var h3 := OgBase(Colors(Icons(h)), canonical);
    if !Has(h, "meta", Prop("og:title")) {
      PhasesAddNoDefault(h, canonical, "og:title");
    }
    if !Has(h, "meta", Prop("og:description")) {
      PhasesAddNoDefault(h, canonical, "og:description");
    }
    if !Has(h, "meta", Prop("og:image")) {
      PhasesAddNoDefault(h, canonical, "og:image");
    }
    assert DefaultsWritten(h, OgDefaults(h3, title), title);
    OgImageSizeKeepsDefaults(h, OgDefaults(h3, title), title);
  }

  /** Forcing the image size keeps the icons, the theme colours and the site-wide values,
      and touches only `<meta>` elements. */
  lemma OgImageSizeKeepsFacts(h: Head, canonical: string)
    ensures IconsSet(h) ==> IconsSet(OgImageSize(h))
    ensures ThemeColors(h) ==> ThemeColors(OgImageSize(h))
    ensures OgBaseSet(h, canonical) ==> OgBaseSet(OgImageSize(h), canonical)
    ensures Frame(h, OgImageSize(h))
  {
    var h1 := UpsertMeta(h, "property", "og:image:width", "1200");
    var r := UpsertMeta(h1, "property", "og:image:height", "630");
    UpsertMetaKeepsIcons(h, "property", "og:image:width", "1200");
    UpsertMetaKeepsIcons(h1, "property", "og:image:height", "630");
    PropertyUpsertKeepsThemes(h, "og:image:width", "1200");
    PropertyUpsertKeepsThemes(h1, "og:image:height", "630");
    if OgBaseSet(h, canonical) {
      PropertyUpsertKeepsOgBase(h, "og:image:width", "1200", canonical);
      PropertyUpsertKeepsOgBase(h1, "og:image:height", "630", canonical);
    }
    FrameTrans(h, h1, r);
  }

  /** Filling in the defaults and forcing the image size keep what the earlier phases set. */
  lemma LastPhasesKeep(h: Head, h3: Head, title: string, canonical: string)
    requires Frame(h, h3) && IconsSet(h3) && ThemeColors(h3) && OgBaseSet(h3, canonical)
    ensures var r := OgImageSize(OgDefaults(h3, title));
            Frame(h, r) && IconsSet(r) && ThemeColors(r) && OgBaseSet(r, canonical)
            && Has(r, "meta", Prop("og:title")) && Has(r, "meta", Prop("og:description")) && Has(r, "meta", Prop("og:image"))
  {
    var h4 := OgDefaults(h3, title);
    DefaultsKeep(h, h3, h4, canonical);
    OgImageSizeKeeps(h4, "og:title");
    OgImageSizeKeeps(h4, "og:description");
    OgImageSizeKeeps(h4, "og:image");
    OgImageSizeKeepsFacts(h4, canonical);
    FrameTrans(h, h4, OgImageSize(h4));
  }

  /** Both names carry the theme colour. */
  lemma ThemeColorsSet(h: Head)
    requires MetaContent(h, "name", "theme-color", Theme) && MetaContent(h, "name", "msapplication-TileColor", Theme)
    ensures ThemeColors(h)
  {
  }

  /** The three phases before the defaults set the icons, the theme colours and the
      site-wide values, and touch only `<meta>` and `<link>` elements. */
  lemma PhasesSet(h: Head, canonical: string)
    ensures var r := OgBase(Colors(Icons(h)), canonical);
            Frame(h, r) && IconsSet(r) && ThemeColors(r) && OgBaseSet(r, canonical)
  {
    var h1 := Icons(h);
    assert IconsSet(h1) && Frame(h, h1);
    var h2 := Colors(h1);
    assert IconsSet(h2) && Frame(h1, h2);
    ThemeColorsSet(h2);
    var h3 := OgBase(h2, canonical);
    assert IconsSet(h3) && ThemeColors(h3) && OgBaseSet(h3, canonical) && Frame(h2, h3);
    FrameTrans(h, h1, h2);
    FrameTrans(h, h2, h3);
  }

  /** Filling in the defaults only appends, so it keeps what the earlier phases set. */
  lemma DefaultsKeep(h: Head, h3: Head, h4: Head, canonical: string)
    requires Frame(h, h3) && IconsSet(h3) && ThemeColors(h3) && OgBaseSet(h3, canonical)
    requires Extends(h3, h4)
    ensures Frame(h, h4)
    ensures IconsSet(h4) && ThemeColors(h4) && OgBaseSet(h4, canonical)
  {
    ExtendsKeeps(h3, h4, canonical);
    ExtendsFrame(h3, h4);
    FrameTrans(h, h3, h4);
  }

  /** The upserts in order on an existing `<head>`. Afterwards the favicons, manifest, theme
      colours and every Open Graph value the script writes are in place, and only `<meta>`
      and `<link>` elements were touched. */
  function Script(h: Head, title: string, canonical: string): (r: Head)
    ensures Frame(h, r)
    ensures IconsSet(r) && ThemeColors(r) && OgBaseSet(r, canonical)
    ensures MetaContent(r, "property", "og:image:width", "1200") && MetaContent(r, "property", "og:image:height", "630")
    ensures Has(r, "meta", Prop("og:title")) && Has(r, "meta", Prop("og:description")) && Has(r, "meta", Prop("og:image"))
    ensures DefaultsWritten(h, r, title)
  {
    var h3 := OgBase(Colors(Icons(h)), canonical);
    PhasesSet(h, canonical);
    LastPhasesKeep(h, h3, title, canonical);
    PhasesWriteDefaults(h, title, canonical);
    OgImageSize(OgDefaults(h3, title))
  }

  /** The whole script: nothing at all without a `<head>`; otherwise the upserts in order. */
  function Boot(head: Option<Head>, title: string, canonical: string): (r: Option<Head>)
    ensures r.None? <==> head.None?
    ensures r.Some? ==> Frame(head.value, r.value)
    ensures r.Some? ==> IconsSet(r.value) && ThemeColors(r.value) && OgBaseSet(r.value, canonical)
    ensures r.Some? ==> MetaContent(r.value, "property", "og:image:width", "1200")
                        && MetaContent(r.value, "property", "og:image:height", "630")
    ensures r.Some? ==> Has(r.value, "meta", Prop("og:title")) && Has(r.value, "meta", Prop("og:description"))
                        && Has(r.value, "meta", Prop("og:image"))
    ensures r.Some? ==> DefaultsWritten(head.value, r.value, title)
  {
    match head
    case None => None
    case Some(h) => Some(Script(h, title, canonical))
  }
}
