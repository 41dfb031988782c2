/** An abstract HTML document: its elements in document order, each with its
    tag name, attributes, parent, text content and the two control properties
    the extension writes (`value` and `checked`). CSS selector matching is not
    modelled; `querySelector` is an oracle over the current elements. */
module Dom {
  import opened Wrappers

  const INPUT := "INPUT"
  const SELECT := "SELECT"
  const TEXTAREA := "TEXTAREA"
  const LABEL := "LABEL"
  const FORM := "FORM"

  /** `tag` is the upper-case `tagName`; `parent` is the index of the parent
      element (None for the root or a child of a shadow root); `text` is the
      `textContent`. */
  datatype Element = Element(
    tag: string,
    attrs: map<string, string>,
    parent: Option<nat>,
    text: string,
    value: string,
    checked: bool)

  predicate IsInput(e: Element) { e.tag == INPUT }
  predicate IsSelect(e: Element) { e.tag == SELECT }
  predicate IsTextArea(e: Element) { e.tag == TEXTAREA }

  /** The three control kinds the extension fills. */
  predicate IsControl(e: Element) { IsInput(e) || IsSelect(e) || IsTextArea(e) }

  /** `getAttribute(name)` as a truth test reads it: an absent attribute and an
      empty one both give "". */
  function AttrOrEmpty(e: Element, name: string): string {
    if name in e.attrs then e.attrs[name] else ""
  }

  /** The element carries attribute `name` with exactly the value `v`
      (what `[name="v"]` selects). */
  predicate HasAttrValue(e: Element, name: string, v: string) {
    name in e.attrs && e.attrs[name] == v
  }

  /** What `querySelector(selector)` does: the first match, no match, or a
      thrown SyntaxError. */
  datatype CssOutcome = Match(index: nat) | NoMatch | SyntaxError

  type CssOracle = (seq<Element>, string) -> CssOutcome

  /** A document: elements in document order, the selector oracle, and
      `document.activeElement`. */
  datatype Document = Document(elements: seq<Element>, css: CssOracle, active: Option<nat>)

  /** Tags are non-empty and every parent precedes its children. */
  predicate TreeOrdered(els: seq<Element>) {
    forall i :: 0 <= i < |els| ==> els[i].tag != "" && (els[i].parent.Some? ==> els[i].parent.value < i)
  }

  /** The oracle only ever answers with an element of the document it is asked about. */
  ghost predicate OracleInRange(css: CssOracle) {
    forall els, s :: css(els, s).Match? ==> css(els, s).index < |els|
  }

  ghost predicate WellFormed(d: Document) {
    && TreeOrdered(d.elements)
    && OracleInRange(d.css)
    && (d.active.Some? ==> d.active.value < |d.elements|)
  }

  /** Two element sequences with the same tree: only `value` and `checked` may differ. */
  predicate SameTree(a: seq<Element>, b: seq<Element>) {
    |a| == |b| && forall i :: 0 <= i < |a| ==>
      a[i].tag == b[i].tag && a[i].attrs == b[i].attrs && a[i].parent == b[i].parent && a[i].text == b[i].text
  }

  lemma SameTreeWellFormed(d: Document, els: seq<Element>)
    requires WellFormed(d) && SameTree(d.elements, els)
    ensures WellFormed(d.(elements := els))
  {
  }

  /** The first index in [from, n) satisfying `p`: a scan in document order. */
  function FirstWhere(n: nat, p: nat -> bool, from: nat): (r: Option<nat>)
    ensures r.Some? ==> from <= r.value < n
    decreases n - from
  {
    if from >= n then None
    else if p(from) then Some(from)
    else FirstWhere(n, p, from + 1)
  }

  /** The scan answers with the first index that satisfies `p`, and with
      nothing exactly when no index in range does. */
  lemma {:induction false} FirstWhereSpec(n: nat, p: nat -> bool, from: nat)
    ensures var r := FirstWhere(n, p, from);
            r.Some? ==> p(r.value) && forall j :: from <= j < r.value ==> !p(j)
    ensures FirstWhere(n, p, from).None? ==> forall j :: from <= j < n ==> !p(j)
    decreases n - from
  {
    if from < n && !p(from) {
      FirstWhereSpec(n, p, from + 1);
    }
  }

  /** `document.querySelector('[name="v"]')` and the like: the first element
      in document order with that attribute value. */
  function FirstWithAttr(els: seq<Element>, name: string, v: string): (r: Option<nat>)
    ensures r.Some? ==> r.value < |els|
  {
    FirstWhere(|els|, (j: nat) => j < |els| && HasAttrValue(els[j], name, v), 0)
  }

  lemma FirstWithAttrSpec(els: seq<Element>, name: string, v: string)
    ensures var r := FirstWithAttr(els, name, v);
            r.Some? ==>
              && HasAttrValue(els[r.value], name, v)
              && forall j {:trigger HasAttrValue(els[j], name, v)} :: 0 <= j < r.value ==> !HasAttrValue(els[j], name, v)
    ensures FirstWithAttr(els, name, v).None? ==>
              forall j {:trigger HasAttrValue(els[j], name, v)} :: 0 <= j < |els| ==> !HasAttrValue(els[j], name, v)
  {
    var p := (j: nat) => j < |els| && HasAttrValue(els[j], name, v);
    FirstWhereSpec(|els|, p, 0);
    assert forall j: nat :: j < |els| ==> (p(j) <==> HasAttrValue(els[j], name, v));
  }

  /** `document.getElementById(id)`: an empty id never names an element. */
  function ById(els: seq<Element>, id: string): (r: Option<nat>)
    ensures r.Some? ==> r.value < |els|
  {
    if id == "" then None else FirstWithAttr(els, "id", id)
  }

  lemma ByIdSpec(els: seq<Element>, id: string)
    ensures var r := ById(els, id);
            r.Some? ==>
              && id != ""
              && HasAttrValue(els[r.value], "id", id)
              && forall j {:trigger HasAttrValue(els[j], "id", id)} :: 0 <= j < r.value ==> !HasAttrValue(els[j], "id", id)
    ensures ById(els, id).None? ==>
              id == "" || forall j {:trigger HasAttrValue(els[j], "id", id)} :: 0 <= j < |els| ==> !HasAttrValue(els[j], "id", id)
  {
    FirstWithAttrSpec(els, "id", id);
  }

  /** Element `i` has element `a` as a proper ancestor. */
  predicate HasAncestor(els: seq<Element>, i: nat, a: nat)
    requires i < |els|
    ensures HasAncestor(els, i, a) ==> a < i
    decreases i
  {
    match els[i].parent
    case None => false
    case Some(p) => p < i && (p == a || HasAncestor(els, p, a))
  }

  /** `closest(tag)`: the element itself or its nearest ancestor with that tag. */
  function Closest(els: seq<Element>, i: nat, tag: string): (r: Option<nat>)
    requires i < |els|
    ensures r.Some? ==> r.value <= i
    decreases i
  {
    if els[i].tag == tag then Some(i)
    else
      match els[i].parent
      case Some(p) => if p < i then Closest(els, p, tag) else None
      case None => None
  }

  /** `closest` finds the element itself or its nearest ancestor with the
      tag: no ancestor between the element and the one found has the tag.
      It finds none only when neither the element nor any ancestor has the
      tag. */
  lemma {:induction false} ClosestSpec(els: seq<Element>, i: nat, tag: string)
    requires i < |els|
    ensures var r := Closest(els, i, tag);
            r.Some? ==> els[r.value].tag == tag && (r.value == i || HasAncestor(els, i, r.value))
    ensures var r := Closest(els, i, tag);
            r.Some? ==> forall a: nat {:trigger HasAncestor(els, i, a)} :: HasAncestor(els, i, a) && r.value < a ==> els[a].tag != tag
    ensures Closest(els, i, tag).None? ==>
              els[i].tag != tag && forall a: nat {:trigger HasAncestor(els, i, a)} :: HasAncestor(els, i, a) ==> els[a].tag != tag
    decreases i
  {
    if els[i].tag != tag && els[i].parent.Some? && els[i].parent.value < i {
      var p := els[i].parent.value;
      ClosestSpec(els, p, tag);
      var r := Closest(els, i, tag);
      assert r == Closest(els, p, tag);
      forall a: nat | HasAncestor(els, i, a) && (r.None? || r.value < a)
        ensures els[a].tag != tag
      {
        if a != p {
          assert HasAncestor(els, p, a);
        }
      }
    }
  }
}
