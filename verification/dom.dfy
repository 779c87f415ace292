/** The `<head>` element as the scripts see it: an ordered sequence of elements, each a
    tag with its attributes, searched with attribute-equality selectors. */
module Dom {
  import opened Wrappers

  datatype Element = Element(tag: string, attrs: map<string, string>)

  type Head = seq<Element>

  /** The element matches the selector `tag[k1="v1"][k2="v2"]...`. */
  predicate Matches(e: Element, tag: string, sel: map<string, string>)
  {
    e.tag == tag && forall k | k in sel :: k in e.attrs && e.attrs[k] == sel[k]
  }

  /** `head.querySelector(selector)`: the position of the first matching element. */
  function Find(h: Head, tag: string, sel: map<string, string>): (r: Option<nat>)
    ensures r.Some? ==> r.value < |h| && Matches(h[r.value], tag, sel)
    ensures r.Some? ==> forall j | 0 <= j < r.value :: !Matches(h[j], tag, sel)
    ensures r.None? <==> forall j | 0 <= j < |h| :: !Matches(h[j], tag, sel)
  {
    if h == [] then None
    else if Matches(h[0], tag, sel) then Some(0)
    else
      match Find(h[1..], tag, sel)
      case None => None
      case Some(i) => Some(i + 1)
  }

  /** Some element matches the selector. */
  predicate Has(h: Head, tag: string, sel: map<string, string>)
  {
    Find(h, tag, sel).Some?
  }

  /** `el.setAttribute(k, v)`. */
  function SetAttr(e: Element, k: string, v: string): Element
  {
    e.(attrs := e.attrs[k := v])
  }

  /** Appending elements never changes which element a selector finds first, once one is found. */
  lemma FindExtend(h: Head, ext: Head, tag: string, sel: map<string, string>)
    requires Has(h, tag, sel)
    ensures Find(h + ext, tag, sel) == Find(h, tag, sel)
  {
    var i := Find(h, tag, sel).value;
    assert (h + ext)[i] == h[i];
    forall j | 0 <= j < i ensures !Matches((h + ext)[j], tag, sel) {
      assert (h + ext)[j] == h[j];
    }
    FindIsFirst(h + ext, tag, sel, i);
  }

  /** The first matching position is what `Find` answers. */
  lemma FindIsFirst(h: Head, tag: string, sel: map<string, string>, i: nat)
    requires i < |h| && Matches(h[i], tag, sel)
    requires forall j | 0 <= j < i :: !Matches(h[j], tag, sel)
    ensures Find(h, tag, sel) == Some(i)
  {
  }

  /** `r` is `h` with zero or more elements appended. */
  predicate Extends(h: Head, r: Head)
  {
    |h| <= |r| && r[..|h|] == h
  }

  /** The same holds for any extension, not only a literal concatenation. */
  lemma FindExtends(h: Head, r: Head, tag: string, sel: map<string, string>)
    requires Extends(h, r) && Has(h, tag, sel)
    ensures Find(r, tag, sel) == Find(h, tag, sel)
  {
    assert r == h + r[|h|..];
    FindExtend(h, r[|h|..], tag, sel);
  }

  /** Two heads that agree on tags and on every attribute except `k` answer every selector
      that does not mention `k` identically. */
  predicate AgreeExcept(h: Head, h': Head, k: string)
  {
    |h| == |h'| && forall i | 0 <= i < |h| :: h[i].tag == h'[i].tag && h[i].attrs - {k} == h'[i].attrs - {k}
  }

  lemma MatchesAgreeExcept(e: Element, e': Element, k: string, tag: string, sel: map<string, string>)
    requires e.tag == e'.tag && e.attrs - {k} == e'.attrs - {k}
    requires k !in sel
    ensures Matches(e, tag, sel) == Matches(e', tag, sel)
  {
    forall x | x in sel
      ensures x in e.attrs <==> x in e'.attrs
      ensures x in e.attrs ==> e.attrs[x] == e'.attrs[x]
    {
      assert x in e.attrs <==> x in e.attrs - {k};
      assert x in e'.attrs <==> x in e'.attrs - {k};
      if x in e.attrs {
        assert e.attrs[x] == (e.attrs - {k})[x];
      }
      if x in e'.attrs {
        assert e'.attrs[x] == (e'.attrs - {k})[x];
      }
    }
  }

  lemma FindAgreeExcept(h: Head, h': Head, k: string, tag: string, sel: map<string, string>)
    requires AgreeExcept(h, h', k)
    requires k !in sel
    ensures Find(h, tag, sel) == Find(h', tag, sel)
  {
    forall i | 0 <= i < |h|
      ensures Matches(h[i], tag, sel) == Matches(h'[i], tag, sel)
    {
      MatchesAgreeExcept(h[i], h'[i], k, tag, sel);
    }
    FindSameMatches(h, h', tag, sel);
  }

  /** `Find` depends only on which positions match. */
  lemma FindSameMatches(h: Head, h': Head, tag: string, sel: map<string, string>)
    requires |h| == |h'|
    requires forall i | 0 <= i < |h| :: Matches(h[i], tag, sel) == Matches(h'[i], tag, sel)
    ensures Find(h, tag, sel) == Find(h', tag, sel)
  {
    match Find(h, tag, sel)
    case Some(i) => FindIsFirst(h', tag, sel, i);
    case None =>
  }

  /** Setting attribute `k` of one element changes the answer of no selector that does not
      mention `k`. */
  lemma FindAfterSetAttr(h: Head, i: nat, k: string, v: string, tag: string, sel: map<string, string>)
    requires i < |h|
    requires k !in sel
    ensures Find(h[i := SetAttr(h[i], k, v)], tag, sel) == Find(h, tag, sel)
  {
    var h' := h[i := SetAttr(h[i], k, v)];
    assert h'[i].attrs - {k} == h[i].attrs - {k};
    assert AgreeExcept(h, h', k);
    FindAgreeExcept(h, h', k, tag, sel);
  }

  /** Where an upsert writes: the first match, or the end of the head when none matches. */
  function UpsertIndex(h: Head, tag: string, sel: map<string, string>): (i: nat)
    ensures i <= |h|
    ensures i == |h| <==> !Has(h, tag, sel)
  {
    match Find(h, tag, sel)
    case Some(i) => i
    case None => |h|
  }

  /** The upsert both page scripts use: the first `tag[sel]` gets attribute `k` set to `v`;
      when there is none, an element carrying the selector's attributes and `k` is appended. */
  function Upsert(h: Head, tag: string, sel: map<string, string>, k: string, v: string): (r: Head)
    ensures |r| == if Has(h, tag, sel) then |h| else |h| + 1
    ensures forall j | 0 <= j < |h| && j != UpsertIndex(h, tag, sel) :: r[j] == h[j]
    ensures var i := UpsertIndex(h, tag, sel);
            r[i].tag == tag && k in r[i].attrs && r[i].attrs[k] == v
    ensures var i := UpsertIndex(h, tag, sel);
            r[i].attrs - {k} == (if i < |h| then h[i].attrs - {k} else sel - {k})
  {
    match Find(h, tag, sel)
    case Some(i) => h[i := SetAttr(h[i], k, v)]
    case None => h + [Element(tag, sel[k := v])]
  }

  /** When `k` is not part of the selector, the upserted element is the selector's first
      match afterwards. */
  lemma UpsertFinds(h: Head, tag: string, sel: map<string, string>, k: string, v: string)
    requires k !in sel
    ensures Find(Upsert(h, tag, sel, k, v), tag, sel) == Some(UpsertIndex(h, tag, sel))
  {
    var r := Upsert(h, tag, sel, k, v);
    match Find(h, tag, sel)
    case Some(i) =>
      FindAfterSetAttr(h, i, k, v, tag, sel);
    case None =>
      assert forall j | 0 <= j < |h| :: r[j] == h[j];
      assert Matches(r[|h|], tag, sel);
  }

  /** An upsert changes nothing of the existing elements but attribute `k` of its target. */
  lemma UpsertAgrees(h: Head, tag: string, sel: map<string, string>, k: string, v: string)
    ensures AgreeExcept(h, Upsert(h, tag, sel, k, v)[..|h|], k)
  {
    var r := Upsert(h, tag, sel, k, v);
    var i := UpsertIndex(h, tag, sel);
    var p := r[..|h|];
    forall j | 0 <= j < |h| ensures h[j].tag == p[j].tag && h[j].attrs - {k} == p[j].attrs - {k} {
      assert p[j] == r[j];
    }
  }

  /** Upserting the same thing twice gives the head of upserting it once. */
  lemma UpsertIdempotent(h: Head, tag: string, sel: map<string, string>, k: string, v: string)
    requires k !in sel
    ensures Upsert(Upsert(h, tag, sel, k, v), tag, sel, k, v) == Upsert(h, tag, sel, k, v)
  {
    var r := Upsert(h, tag, sel, k, v);
    UpsertFinds(h, tag, sel, k, v);
    var i := UpsertIndex(h, tag, sel);
    assert r[i].attrs[k := v] == r[i].attrs;
    assert r[i := SetAttr(r[i], k, v)] == r;
  }

  /** Whatever an upsert targets, the first match of a selector not mentioning `k` stays
      first, keeps its tag and keeps every attribute but `k`. */
  lemma UpsertKeepsFirst(h: Head, tag: string, sel: map<string, string>, k: string, v: string, tag': string, sel': map<string, string>)
    requires k !in sel'
    requires Has(h, tag', sel')
    ensures var r := Upsert(h, tag, sel, k, v);
            var j := Find(h, tag', sel').value;
            Find(r, tag', sel') == Some(j) && r[j].tag == h[j].tag && r[j].attrs - {k} == h[j].attrs - {k}
  {
    var r := Upsert(h, tag, sel, k, v);
    match Find(h, tag, sel)
    case Some(i) =>
      FindAfterSetAttr(h, i, k, v, tag', sel');
      assert h[i].attrs[k := v] - {k} == h[i].attrs - {k};
    case None =>
      FindExtend(h, r[|h|..], tag', sel');
      assert h + r[|h|..] == r;
  }

  /** Appending in two steps is appending. */
  lemma ExtendsTrans(a: Head, b: Head, c: Head)
    requires Extends(a, b) && Extends(b, c)
    ensures Extends(a, c)
  {
    assert c[..|a|] == c[..|b|][..|a|];
  }

  /** An upsert leaves the first match of another selector (one not mentioning `k`) where it
      was and as it was, unless that element is itself the upsert's target. */
  lemma UpsertPreserves(h: Head, tag: string, sel: map<string, string>, k: string, v: string, tag': string, sel': map<string, string>)
    requires k !in sel'
    requires Has(h, tag', sel')
    requires !Matches(h[Find(h, tag', sel').value], tag, sel)
    ensures var r := Upsert(h, tag, sel, k, v);
            Find(r, tag', sel') == Find(h, tag', sel') && r[Find(h, tag', sel').value] == h[Find(h, tag', sel').value]
  {
    var r := Upsert(h, tag, sel, k, v);
    match Find(h, tag, sel)
    case Some(i) =>
      FindAfterSetAttr(h, i, k, v, tag', sel');
    case None =>
      FindExtend(h, r[|h|..], tag', sel');
      assert h + r[|h|..] == r;
  }

  /** An upsert creates no match of a selector (one not mentioning `k`) that had none, unless
      the element it appends matches it. */
  lemma UpsertAddsNoMatch(h: Head, tag: string, sel: map<string, string>, k: string, v: string, tag': string, sel': map<string, string>)
    requires k !in sel'
    requires !Has(h, tag', sel')
    requires !Matches(Element(tag, sel[k := v]), tag', sel')
    ensures !Has(Upsert(h, tag, sel, k, v), tag', sel')
  {
    var r := Upsert(h, tag, sel, k, v);
    match Find(h, tag, sel)
    case Some(i) =>
      FindAfterSetAttr(h, i, k, v, tag', sel');
    case None =>
      assert forall j | 0 <= j < |r| :: !Matches(r[j], tag', sel') by {
        forall j | 0 <= j < |r| ensures !Matches(r[j], tag', sel') {
          if j < |h| {
            assert r[j] == h[j];
          }
        }
      }
  }
}
