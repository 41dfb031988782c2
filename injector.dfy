/** The fill engine of the content script: resolving a rule's selector hint
    to an element, materialising its value, writing it into the control with
    `input` and `change` events, and running a whole preset with periodic
    frame yields and an optional form submission.

    The pure part (resolution cascade, value materialisation, the effect of
    one rule and of a whole run) is given as functions; the `Page` class
    performs the same operations step by step on a mutable document and is
    proved to agree with them. */
module Injector {
  import opened Wrappers
  import opened Strings
  import opened Js
  import opened Types
  import opened Dom

  const NotFoundReason := "element-not-found"
  const UnsupportedReason := "unsupported-element-or-type"

  /* ---------------------------------------------------------------- options */

  /** The run options after the caller's partial options have been laid over
      the defaults. `batchSize` is whatever number the caller passed. */
  datatype InjectOptions = InjectOptions(allowBatchYield: bool, batchSize: int)

  const DefaultOptions := InjectOptions(true, 8)

  /** `{ ...DEFAULT_OPTIONS, ...options }`: a key the caller leaves out keeps its default. */
  function ResolveOptions(allowBatchYield: Option<bool>, batchSize: Option<int>): (o: InjectOptions)
    ensures allowBatchYield.Some? ==> o.allowBatchYield == allowBatchYield.value
    ensures allowBatchYield.None? ==> o.allowBatchYield == DefaultOptions.allowBatchYield
    ensures batchSize.Some? ==> o.batchSize == batchSize.value
    ensures batchSize.None? ==> o.batchSize == DefaultOptions.batchSize
  {
    InjectOptions(allowBatchYield.GetOr(DefaultOptions.allowBatchYield), batchSize.GetOr(DefaultOptions.batchSize))
  }

  function Abs(x: int): nat { if x < 0 then -x else x }

  /** JavaScript's `a % b` on integers: NaN (None) when `b` is 0, otherwise
      the remainder of truncating division, which takes the sign of `a`. */
  function JsRemainder(a: int, b: int): (r: Option<int>)
    ensures r.Some? <==> b != 0
    ensures r.Some? ==> Abs(r.value) < Abs(b)
    ensures r.Some? && a >= 0 ==> r.value == a % Abs(b)
  {
    if b == 0 then None
    else
      var m := Abs(a) % Abs(b);
      if a < 0 then Some(-m) else Some(m)
  }

  /** The run waits for the next animation frame after field `i` (counted from 0). */
  predicate YieldsAfter(opts: InjectOptions, i: nat) {
    opts.allowBatchYield && JsRemainder(i + 1, opts.batchSize) == Some(0)
  }

  /* ------------------------------------------------------------- resolution */

  /** Two texts are equal once whitespace runs are collapsed, the ends trimmed
      and ASCII letters lowered. */
  predicate FuzzyEquals(a: string, b: string) {
    NormalizeText(a) == NormalizeText(b)
  }

  /** `querySelector` with a thrown SyntaxError turned into "no element". An
      answer outside the document cannot come from the oracle of a
      well-formed document and is read as "no element". */
  function SafeQuery(d: Document, selector: string): (r: Option<nat>)
    ensures r.Some? ==> r.value < |d.elements|
    ensures WellFormed(d) ==> (r.Some? <==> d.css(d.elements, selector).Match?)
  {
    match d.css(d.elements, selector)
    case Match(i) => if i < |d.elements| then Some(i) else None
    case NoMatch => None
    case SyntaxError => None
  }

  /** `label.querySelector("input, select, textarea")`: the first control, in
      document order, that lies inside label `k`. */
  function NestedControl(els: seq<Element>, k: nat): (r: Option<nat>)
    requires k < |els|
    ensures r.Some? ==> r.value < |els|
  {
    FirstWhere(|els|, (j: nat) => j < |els| && IsControl(els[j]) && HasAncestor(els, j, k), 0)
  }

  /** The nested control is the first control inside the label; there is
      none only when no control lies inside it. */
  lemma NestedControlSpec(els: seq<Element>, k: nat)
    requires k < |els|
    ensures var r := NestedControl(els, k);
            r.Some? ==>
              && IsControl(els[r.value]) && HasAncestor(els, r.value, k)
              && forall j {:trigger HasAncestor(els, j, k)} :: 0 <= j < r.value && IsControl(els[j]) ==> !HasAncestor(els, j, k)
    ensures NestedControl(els, k).None? ==>
              forall j {:trigger HasAncestor(els, j, k)} :: 0 <= j < |els| && IsControl(els[j]) ==> !HasAncestor(els, j, k)
  {
    var p := (j: nat) => j < |els| && IsControl(els[j]) && HasAncestor(els, j, k);
    FirstWhereSpec(|els|, p, 0);
    assert forall j: nat :: j < |els| ==> (p(j) <==> IsControl(els[j]) && HasAncestor(els, j, k));
  }

  /** The control a label designates: the element its `for` attribute names,
      else the first control nested inside it. */
  function LabelControl(els: seq<Element>, k: nat): (r: Option<nat>)
    requires k < |els|
    ensures r.Some? ==> r.value < |els|
  {
    var target := AttrOrEmpty(els[k], "for");
    var byFor := ById(els, target);
    if byFor.Some? then byFor else NestedControl(els, k)
  }

  /** Label `k` is one the label scan stops at for hint `text`. */
  predicate LabelHit(els: seq<Element>, text: string, k: nat)
    requires k < |els|
  {
    var labelText := Trim(els[k].text);
    && els[k].tag == LABEL
    && labelText != ""
    && FuzzyEquals(labelText, text)
    && LabelControl(els, k).Some?
  }

  /** Label `j` stops the scan: `LabelHit` as a test on every position. */
  function LabelScan(els: seq<Element>, text: string): nat -> bool {
    (j: nat) => j < |els| && LabelHit(els, text, j)
  }

  /** The label scan from position `k` on: the control of the first label
      there that the scan stops at. */
  function LabelSearchFrom(els: seq<Element>, text: string, k: nat): (r: Option<nat>)
    ensures r.Some? ==> r.value < |els|
  {
    match FirstWhere(|els|, LabelScan(els, text), k)
    case Some(j) => LabelControl(els, j)
    case None => None
  }

  /** One step of the label scan. */
  lemma LabelSearchFromStep(els: seq<Element>, text: string, k: nat)
    requires k < |els|
    ensures LabelSearchFrom(els, text, k)
            == if LabelHit(els, text, k) then LabelControl(els, k) else LabelSearchFrom(els, text, k + 1)
  {
    assert LabelScan(els, text)(k) == LabelHit(els, text, k);
  }

  /** The label stage, `findByLabelText(text)`. */
  function LabelSearch(els: seq<Element>, text: string): (r: Option<nat>)
    ensures r.Some? ==> r.value < |els|
  {
    LabelSearchFrom(els, text, 0)
  }

  /** The label stage answers with the control of the first label, in
      document order, whose trimmed text fuzzy-equals the hint and which
      designates a control; and with nothing exactly when there is none. */
  lemma LabelSearchFirstLabel(els: seq<Element>, text: string, k: nat)
    requires k < |els| && LabelHit(els, text, k)
    requires forall j :: 0 <= j < k ==> !LabelHit(els, text, j)
    ensures LabelSearch(els, text) == LabelControl(els, k)
  {
    var p := LabelScan(els, text);
    var r := FirstWhere(|els|, p, 0);
    FirstWhereSpec(|els|, p, 0);
    assert p(k);
    assert r.Some? && r.value <= k;
    assert p(r.value);
  }

  lemma LabelSearchNone(els: seq<Element>, text: string)
    ensures LabelSearch(els, text).None? <==> forall j :: 0 <= j < |els| ==> !LabelHit(els, text, j)
  {
    var p := LabelScan(els, text);
    var r := FirstWhere(|els|, p, 0);
    FirstWhereSpec(|els|, p, 0);
    if r.Some? {
      assert p(r.value);
      assert LabelControl(els, r.value).Some?;
    } else {
      forall j | 0 <= j < |els| ensures !LabelHit(els, text, j) {
        assert !p(j);
      }
    }
  }

  /** `findElement(hint)`: the stages in order, stopping at the first one
      that finds an element. */
  function Resolve(d: Document, hint: string): (r: Option<nat>)
    ensures r.Some? ==> r.value < |d.elements|
  {
    var byCss := SafeQuery(d, hint);
    if byCss.Some? then byCss else
    var byName := FirstWithAttr(d.elements, "name", hint);
    if byName.Some? then byName else
    var byId := ById(d.elements, hint);
    if byId.Some? then byId else
    var byPlaceholder := FirstWithAttr(d.elements, "placeholder", hint);
    if byPlaceholder.Some? then byPlaceholder else
    LabelSearch(d.elements, hint)
  }

  /** The five stages of the resolver, in the order they are tried. */
  function Stages(d: Document, hint: string): seq<Option<nat>> {
    [ SafeQuery(d, hint),
      FirstWithAttr(d.elements, "name", hint),
      ById(d.elements, hint),
      FirstWithAttr(d.elements, "placeholder", hint),
      LabelSearch(d.elements, hint) ]
  }

  /** The first present entry of a list. */
  function FirstHit(hits: seq<Option<nat>>): (r: Option<nat>)
    ensures r.Some? ==> exists k :: 0 <= k < |hits| && hits[k] == r && forall j :: 0 <= j < k ==> hits[j].None?
    ensures r.None? ==> forall k :: 0 <= k < |hits| ==> hits[k].None?
  {
    if hits == [] then None
    else if hits[0].Some? then hits[0]
    else
      var r := FirstHit(hits[1..]);
      assert r.Some? ==> exists k :: 1 <= k < |hits| && hits[k] == r && forall j :: 0 <= j < k ==> hits[j].None? by {
        if r.Some? {
          var k :| 0 <= k < |hits[1..]| && hits[1..][k] == r && forall j :: 0 <= j < k ==> hits[1..][j].None?;
          assert hits[k + 1] == r;
          assert forall j :: 1 <= j < k + 1 ==> hits[j] == hits[1..][j - 1];
        }
      }
      r
  }

  lemma FirstHitAt(hits: seq<Option<nat>>, k: nat)
    requires k < |hits| && hits[k].Some?
    requires forall j :: 0 <= j < k ==> hits[j].None?
    ensures FirstHit(hits) == hits[k]
  {
  }

  /** The stages are tried strictly in order: the resolver answers with what
      the first stage that finds an element finds, and with nothing when no
      stage finds one. */
  lemma ResolveFirstStage(d: Document, hint: string, k: nat)
    requires k < 5
    requires Stages(d, hint)[k].Some?
    requires forall j :: 0 <= j < k ==> Stages(d, hint)[j].None?
    ensures Resolve(d, hint) == Stages(d, hint)[k]
  {
    var s := Stages(d, hint);
    if k > 0 { assert s[0].None?; }
    if k > 1 { assert s[1].None?; }
    if k > 2 { assert s[2].None?; }
    if k > 3 { assert s[3].None?; }
  }

  lemma ResolveNone(d: Document, hint: string)
    ensures Resolve(d, hint).None? <==> forall k :: 0 <= k < 5 ==> Stages(d, hint)[k].None?
  {
    var s := Stages(d, hint);
    assert s[0] == SafeQuery(d, hint) && s[1] == FirstWithAttr(d.elements, "name", hint);
    assert s[2] == ById(d.elements, hint) && s[3] == FirstWithAttr(d.elements, "placeholder", hint);
    assert s[4] == LabelSearch(d.elements, hint);
  }

  /** The resolver is the first hit of its stage list. */
  lemma ResolveIsFirstHit(d: Document, hint: string)
    ensures Resolve(d, hint) == FirstHit(Stages(d, hint))
  {
    var s := Stages(d, hint);
    if s[0].Some? { FirstHitAt(s, 0); }
    else if s[1].Some? { FirstHitAt(s, 1); }
    else if s[2].Some? { FirstHitAt(s, 2); }
    else if s[3].Some? { FirstHitAt(s, 3); }
    else if s[4].Some? { FirstHitAt(s, 4); }
  }

  /** A label is never preferred over an element whose `name` is the hint:
      when the selector stage finds nothing, the name stage wins. */
  lemma NameBeatsLabel(d: Document, hint: string, i: nat)
    requires !d.css(d.elements, hint).Match?
    requires FirstWithAttr(d.elements, "name", hint) == Some(i)
    ensures Resolve(d, hint) == Some(i)
  {
  }

  /** Only a hint with visible characters can reach a control through a
      label: labels with blank text are skipped, and a blank hint normalizes
      to the empty text, which no other label text does. */
  lemma BlankHintNoLabel(els: seq<Element>, hint: string)
    requires Blank(hint)
    ensures LabelSearch(els, hint) == None
  {
    NormalizeTextEmpty(hint);
    forall k | 0 <= k < |els| ensures !LabelHit(els, hint, k) {
      var t := Trim(els[k].text);
      if t != "" {
        NormalizeTextEmpty(t);
        TrimShape(els[k].text);
        assert !IsSpace(t[0]);
      }
    }
    LabelSearchNone(els, hint);
  }

  /** The selector hint "" is neither a valid selector nor an id, yet the
      attribute stage still finds an element that carries an empty `name`. */
  lemma EmptyHintMatchesEmptyName()
    ensures var e := Element(INPUT, map["name" := ""], None, "", "", false);
            var d := Document([e], (els: seq<Element>, s: string) => SyntaxError, None);
            WellFormed(d) && Resolve(d, "") == Some(0)
  {
    var e := Element(INPUT, map["name" := ""], None, "", "", false);
    var d := Document([e], (els: seq<Element>, s: string) => SyntaxError, None);
    assert HasAttrValue(d.elements[0], "name", "");
    ResolveFirstStage(d, "", 1);
  }

  /* ------------------------------------------------------ value materialising */

  /** What calling a generator function does: returns a value (already turned
      into its string form), returns null or undefined, or throws. */
  datatype CallOutcome = Returned(text: string) | ReturnedNullish | Threw

  /** The generator library: its root object and the behaviour of each
      function value reachable in it. */
  datatype Catalog = Catalog(root: JsValue, call: nat -> CallOutcome)

  /** The path's dot-separated segments, each trimmed. */
  function Segments(path: string): seq<string> {
    var parts := Split(path, '.');
    seq(|parts|, (i: int) requires 0 <= i < |parts| => Trim(parts[i]))
  }

  /** Following the segments from `cur`: an empty segment, or a step from a
      value that is not an object, gives `undefined`. */
  function Walk(cur: JsValue, segs: seq<string>): JsValue
    decreases |segs|
  {
    if segs == [] then cur
    else if segs[0] == "" then Undefined
    else if !TypeofObject(cur) || cur.Null? then Undefined
    else Walk(Get(cur, segs[0]), segs[1..])
  }

  /** `buildValue(rule)`: the text written into the control. */
  function Materialize(cat: Catalog, rule: FieldRule): string {
    if rule.valueStrategy == Static then rule.staticValue.GetOr("")
    else if rule.fakerMethod.None? || rule.fakerMethod.value == "" then ""
    else
      match Walk(cat.root, Segments(rule.fakerMethod.value))
      case Function(id) =>
        (match cat.call(id)
         case Returned(text) => text
         case ReturnedNullish => ""
         case Threw => "")
      case _ => ""
  }

  /** A path with an empty segment (a leading, trailing or doubled dot, or a
      blank piece) never reaches anything. */
  lemma {:induction false} WalkEmptySegment(cur: JsValue, segs: seq<string>, k: nat)
    requires k < |segs| && segs[k] == ""
    ensures Walk(cur, segs) == Undefined
    decreases |segs|
  {
    if segs[0] != "" && TypeofObject(cur) && !cur.Null? {
      WalkEmptySegment(Get(cur, segs[0]), segs[1..], k - 1);
    }
  }

  /** A generated value other than "" was produced by calling the function
      found at the end of a path without empty segments. */
  lemma GeneratedValueSource(cat: Catalog, rule: FieldRule)
    requires rule.valueStrategy == Faker
    requires Materialize(cat, rule) != ""
    ensures rule.fakerMethod.Some?
    ensures var segs := Segments(rule.fakerMethod.value);
            (forall k :: 0 <= k < |segs| ==> segs[k] != "")
            && exists id :: Walk(cat.root, segs) == Function(id) && cat.call(id) == Returned(Materialize(cat, rule))
  {
    var segs := Segments(rule.fakerMethod.value);
    forall k | 0 <= k < |segs| ensures segs[k] != "" {
      if segs[k] == "" {
        WalkEmptySegment(cat.root, segs, k);
      }
    }
  }

  /** A static rule writes its literal, or "" when it has none. */
  lemma StaticValue(cat: Catalog, rule: FieldRule)
    requires rule.valueStrategy == Static
    ensures rule.staticValue.Some? ==> Materialize(cat, rule) == rule.staticValue.value
    ensures rule.staticValue.None? ==> Materialize(cat, rule) == ""
  {
  }

  /* ---------------------------------------------------------- applying values */

  /** `value === "true" || value === "1" || value === "on"`. */
  predicate CheckboxOn(v: string) {
    v == "true" || v == "1" || v == "on"
  }

  /** The tags a field type can be written into. */
  function AcceptedTags(t: FieldType): set<string> {
    match t
    case Checkbox => {INPUT}
    case Select => {SELECT}
    case Text => {INPUT, TEXTAREA}
    case Email => {INPUT, TEXTAREA}
    case Number => {INPUT, TEXTAREA}
    case Date => {INPUT, TEXTAREA}
  }

  /** `applyValue`: the written element, or None when the type and the
      element do not fit together. */
  function ApplySpec(e: Element, t: FieldType, v: string): (r: Option<Element>)
    ensures r.Some? <==> e.tag in AcceptedTags(t)
    ensures r.Some? && t == Checkbox ==> r.value == e.(checked := CheckboxOn(v))
    ensures r.Some? && t != Checkbox ==> r.value == e.(value := v)
  {
    match t
    case Checkbox => if IsInput(e) then Some(e.(checked := v == "true" || v == "1" || v == "on")) else None
    case Select => if IsSelect(e) then Some(e.(value := v)) else None
    case _ => if IsInput(e) || IsTextArea(e) then Some(e.(value := v)) else None
  }

  /* --------------------------------------------------------- the run, as values */

  datatype EventName = InputEvent | ChangeEvent

  /** What the page observes, in order: an event dispatched at an element, a
      wait for the next animation frame, a form asked to submit itself. */
  datatype Effect = Dispatched(target: nat, event: EventName) | FrameYield | SubmitRequested(form: nat)

  /** The events written after every successful write. */
  function WriteEvents(i: nat): seq<Effect> {
    [Dispatched(i, InputEvent), Dispatched(i, ChangeEvent)]
  }

  datatype FieldOutcome = FieldOutcome(result: InjectionResult, elements: seq<Element>, effects: seq<Effect>)

  /** `injectField(rule)` on document `d`. */
  function FieldStep(d: Document, cat: Catalog, rule: FieldRule): (o: FieldOutcome)
    ensures SameTree(d.elements, o.elements)
  {
    match Resolve(d, rule.selector)
    case None =>
      FieldOutcome(InjectionResult(rule.id, false, rule.selector, Some(NotFoundReason)), d.elements, [])
    case Some(i) =>
      match ApplySpec(d.elements[i], rule.fieldType, Materialize(cat, rule))
      case None =>
        FieldOutcome(InjectionResult(rule.id, false, rule.selector, Some(UnsupportedReason)), d.elements, [])
      case Some(e) =>
        FieldOutcome(InjectionResult(rule.id, true, rule.selector, None), d.elements[i := e], WriteEvents(i))
  }

  /** The fixed shape of a result: it names its rule and selector, and it
      carries one of the two reasons exactly when it did not match. */
  predicate ResultFor(r: InjectionResult, rule: FieldRule) {
    && r.fieldId == rule.id
    && r.selectorTried == rule.selector
    && (r.matched <==> r.reason.None?)
    && (r.reason.Some? ==> r.reason.value == NotFoundReason || r.reason.value == UnsupportedReason)
  }

  /** One rule: "element-not-found" exactly when no stage finds an element,
      "unsupported-element-or-type" exactly when the element found does not
      accept the field type, and otherwise the value is written into that
      element alone, followed by its `input` and `change` events. */
  lemma FieldStepOutcome(d: Document, cat: Catalog, rule: FieldRule)
    ensures var o := FieldStep(d, cat, rule);
            var target := Resolve(d, rule.selector);
            && ResultFor(o.result, rule)
            && (o.result.reason == Some(NotFoundReason) <==> target.None?)
            && (o.result.reason == Some(UnsupportedReason) <==>
                  target.Some? && d.elements[target.value].tag !in AcceptedTags(rule.fieldType))
            && (o.result.matched ==>
                  && target.Some?
                  && o.elements == d.elements[target.value := ApplySpec(d.elements[target.value], rule.fieldType, Materialize(cat, rule)).value]
                  && o.effects == WriteEvents(target.value))
            && (!o.result.matched ==> o.elements == d.elements && o.effects == [])
  {
  }

  datatype RunState = RunState(elements: seq<Element>, results: seq<InjectionResult>, effects: seq<Effect>)

  /** What applying one rule does to the elements it is given, with the rest
      of the page (selector engine, focus, generator library) held fixed. */
  type Stepper = (seq<Element>, FieldRule) -> FieldOutcome

  /** `injectField` on page `d` with its elements replaced. */
  function Runner(d: Document, cat: Catalog): Stepper {
    (els: seq<Element>, rule: FieldRule) => FieldStep(d.(elements := els), cat, rule)
  }

  /** The state after the first `n` rules of a run that applies each rule
      with `step` and, after each field, waits for a frame when the options
      say so. */
  function RunWith(step: Stepper, els: seq<Element>, rules: seq<FieldRule>, opts: InjectOptions, n: nat): (s: RunState)
    requires n <= |rules|
    ensures |s.results| == n
    decreases n
  {
    if n == 0 then RunState(els, [], [])
    else
      var s := RunWith(step, els, rules, opts, n - 1);
      var o := step(s.elements, rules[n - 1]);
      var pause := if YieldsAfter(opts, n - 1) then [FrameYield] else [];
      RunState(o.elements, s.results + [o.result], s.effects + o.effects + pause)
  }

  /** The step only ever changes `value` and `checked`. */
  ghost predicate KeepsTree(step: Stepper) {
    forall els, rule :: SameTree(els, step(els, rule).elements)
  }

  /** The shape of every `injectField` outcome: a result of the fixed shape;
      on a match the two write events at one element; otherwise no effect
      and no change. */
  predicate Shaped(els: seq<Element>, rule: FieldRule, o: FieldOutcome) {
    && ResultFor(o.result, rule)
    && (o.result.matched ==>
          |o.effects| == 2 && o.effects[0].Dispatched? && o.effects == WriteEvents(o.effects[0].target))
    && (!o.result.matched ==> o.effects == [] && o.elements == els)
  }

  ghost predicate WellShaped(step: Stepper) {
    forall els, rule :: Shaped(els, rule, step(els, rule))
  }

  /** `injectField` is such a step. */
  lemma RunnerSound(d: Document, cat: Catalog)
    ensures KeepsTree(Runner(d, cat)) && WellShaped(Runner(d, cat))
  {
    forall els, rule
      ensures SameTree(els, Runner(d, cat)(els, rule).elements) && Shaped(els, rule, Runner(d, cat)(els, rule))
    {
      FieldStepOutcome(d.(elements := els), cat, rule);
    }
  }

  lemma {:induction false} RunKeepsTree(step: Stepper, els: seq<Element>, rules: seq<FieldRule>, opts: InjectOptions, n: nat)
    requires KeepsTree(step) && n <= |rules|
    ensures SameTree(els, RunWith(step, els, rules, opts, n).elements)
    decreases n
  {
    if n > 0 {
      RunKeepsTree(step, els, rules, opts, n - 1);
      var s := RunWith(step, els, rules, opts, n - 1);
      assert SameTree(s.elements, step(s.elements, rules[n - 1]).elements);
    }
  }

  /** `document.querySelector("form")`. */
  function FirstForm(els: seq<Element>): (r: Option<nat>)
    ensures r.Some? ==> r.value < |els|
  {
    FirstWhere(|els|, (j: nat) => j < |els| && els[j].tag == FORM, 0)
  }

  lemma FirstFormSpec(els: seq<Element>)
    ensures var r := FirstForm(els);
            r.Some? ==> els[r.value].tag == FORM && forall j :: 0 <= j < r.value ==> els[j].tag != FORM
    ensures FirstForm(els).None? ==> forall j :: 0 <= j < |els| ==> els[j].tag != FORM
  {
    var p := (j: nat) => j < |els| && els[j].tag == FORM;
    FirstWhereSpec(|els|, p, 0);
    assert forall j: nat :: j < |els| ==> (p(j) <==> els[j].tag == FORM);
  }

  /** The form a submission goes to: the one around the focused element,
      else the first form of the document. */
  function SubmitTarget(d: Document): (r: Option<nat>)
    requires WellFormed(d)
    ensures r.Some? ==> r.value < |d.elements|
  {
    var els := d.elements;
    var near := if d.active.Some? then Closest(els, d.active.value, FORM) else None;
    if near.Some? then near else FirstForm(els)
  }

  /** Element `i` is a form or lies inside one. */
  ghost predicate InForm(els: seq<Element>, i: nat)
    requires i < |els|
  {
    els[i].tag == FORM || exists a: nat {:trigger HasAncestor(els, i, a)} :: HasAncestor(els, i, a) && els[a].tag == FORM
  }

  /** The submission goes to a form. When the focused element is a form or
      lies inside one, it goes to that nearest form. Otherwise it goes to the
      first form in document order. There is no submission only when the
      document has no form at all. */
  lemma SubmitTargetSpec(d: Document)
    requires WellFormed(d)
    ensures var r := SubmitTarget(d);
            r.Some? ==> d.elements[r.value].tag == FORM
    ensures SubmitTarget(d).None? <==> forall j :: 0 <= j < |d.elements| ==> d.elements[j].tag != FORM
    ensures var r := SubmitTarget(d);
            var els := d.elements;
            d.active.Some? && InForm(els, d.active.value) ==>
              && r.Some?
              && (r.value == d.active.value || HasAncestor(els, d.active.value, r.value))
              && forall a: nat {:trigger HasAncestor(els, d.active.value, a)} ::
                   HasAncestor(els, d.active.value, a) && r.value < a ==> els[a].tag != FORM
    ensures var r := SubmitTarget(d);
            (d.active.None? || !InForm(d.elements, d.active.value)) ==>
              r.Some? ==> forall j :: 0 <= j < r.value ==> d.elements[j].tag != FORM
  {
    FirstFormSpec(d.elements);
    if d.active.Some? {
      ClosestSpec(d.elements, d.active.value, FORM);
    }
  }

  /** `injectPreset(preset, options)` on page `d`: the fields in order, then
      the submission when the preset asks for one. */
  function InjectRun(d: Document, cat: Catalog, preset: FormPreset, opts: InjectOptions): (s: RunState)
    requires WellFormed(d)
    ensures SameTree(d.elements, s.elements)
  {
    var s := RunWith(Runner(d, cat), d.elements, preset.fields, opts, |preset.fields|);
    RunnerSound(d, cat);
    RunKeepsTree(Runner(d, cat), d.elements, preset.fields, opts, |preset.fields|);
    SameTreeWellFormed(d, s.elements);
    if preset.autoSubmit then
      var form := SubmitTarget(d.(elements := s.elements));
      s.(effects := s.effects + if form.Some? then [SubmitRequested(form.value)] else [])
    else s
  }

  /** `InjectRun` as the loop followed by the optional submission. */
  lemma InjectRunUnfold(d: Document, cat: Catalog, preset: FormPreset, opts: InjectOptions)
    requires WellFormed(d)
    ensures var s := RunWith(Runner(d, cat), d.elements, preset.fields, opts, |preset.fields|);
            && WellFormed(d.(elements := s.elements))
            && InjectRun(d, cat, preset, opts)
               == if preset.autoSubmit
                  then var form := SubmitTarget(d.(elements := s.elements));
                       s.(effects := s.effects + if form.Some? then [SubmitRequested(form.value)] else [])
                  else s
  {
    var s := RunWith(Runner(d, cat), d.elements, preset.fields, opts, |preset.fields|);
    RunnerSound(d, cat);
    RunKeepsTree(Runner(d, cat), d.elements, preset.fields, opts, |preset.fields|);
    SameTreeWellFormed(d, s.elements);
  }

  /* ------------------------------------------------------- facts about a run */

  /** Every rule gives exactly one result, in rule order, of the fixed shape. */
  lemma {:induction false} RunResultsPerRule(step: Stepper, els: seq<Element>, rules: seq<FieldRule>, opts: InjectOptions, n: nat)
    requires WellShaped(step) && n <= |rules|
    ensures var s := RunWith(step, els, rules, opts, n);
            forall k :: 0 <= k < n ==> ResultFor(s.results[k], rules[k])
    decreases n
  {
    if n > 0 {
      RunResultsPerRule(step, els, rules, opts, n - 1);
      var s := RunWith(step, els, rules, opts, n - 1);
      assert Shaped(s.elements, rules[n - 1], step(s.elements, rules[n - 1]));
    }
  }

  /** Later rules never change earlier results or effects. */
  lemma {:induction false} RunPrefixStable(step: Stepper, els: seq<Element>, rules: seq<FieldRule>, opts: InjectOptions, m: nat, n: nat)
    requires m <= n <= |rules|
    ensures RunWith(step, els, rules, opts, n).results[..m] == RunWith(step, els, rules, opts, m).results
    ensures RunWith(step, els, rules, opts, m).effects <= RunWith(step, els, rules, opts, n).effects
    decreases n - m
  {
    if m < n {
      RunPrefixStable(step, els, rules, opts, m, n - 1);
      var s := RunWith(step, els, rules, opts, n - 1);
      var t := RunWith(step, els, rules, opts, n);
      assert t.results[..n - 1] == s.results;
      assert t.results[..m] == s.results[..m];
    }
  }

  /** Result `k` is what applying rule `k` gives on the elements exactly as
      the earlier rules left them. */
  lemma RunResultAt(step: Stepper, els: seq<Element>, rules: seq<FieldRule>, opts: InjectOptions, n: nat, k: nat)
    requires k < n <= |rules|
    ensures RunWith(step, els, rules, opts, n).results[k]
            == step(RunWith(step, els, rules, opts, k).elements, rules[k]).result
  {
    RunPrefixStable(step, els, rules, opts, k + 1, n);
    assert RunWith(step, els, rules, opts, n).results[k] == RunWith(step, els, rules, opts, n).results[..k + 1][k];
  }

  lemma AppendAssoc(a: seq<Effect>, b: seq<Effect>, c: seq<Effect>, d: seq<Effect>)
    ensures a + b + c + d == a + (b + c + d)
  {
  }

  /* Counting effects. */

  predicate IsYield(e: Effect) { e.FrameYield? }
  predicate IsDispatch(e: Effect) { e.Dispatched? }
  predicate IsSubmit(e: Effect) { e.SubmitRequested? }

  function CountWhere(s: seq<Effect>, p: Effect -> bool): nat {
    if s == [] then 0 else CountWhere(s[..|s| - 1], p) + if p(s[|s| - 1]) then 1 else 0
  }

  lemma {:induction false} CountWhereAppend(a: seq<Effect>, b: seq<Effect>, p: Effect -> bool)
    ensures CountWhere(a + b, p) == CountWhere(a, p) + CountWhere(b, p)
    decreases |b|
  {
    if b != [] {
      assert (a + b)[..|a + b| - 1] == a + b[..|b| - 1];
      assert (a + b)[|a + b| - 1] == b[|b| - 1];
      CountWhereAppend(a, b[..|b| - 1], p);
    } else {
      assert a + b == a;
    }
  }

  lemma CountWhereSmall(p: Effect -> bool, x: Effect, y: Effect)
    ensures CountWhere([], p) == 0
    ensures CountWhere([x], p) == if p(x) then 1 else 0
    ensures CountWhere([x, y], p) == (if p(x) then 1 else 0) + (if p(y) then 1 else 0)
  {
    assert [x][..0] == [];
    assert [x, y][..1] == [x];
  }

  /** The effects without the frame yields. */
  function WithoutYields(s: seq<Effect>): (r: seq<Effect>)
    ensures forall e :: e in r ==> e in s && !IsYield(e)
  {
    if s == [] then [] else WithoutYields(s[..|s| - 1]) + if IsYield(s[|s| - 1]) then [] else [s[|s| - 1]]
  }

  lemma {:induction false} WithoutYieldsAppend(a: seq<Effect>, b: seq<Effect>)
    ensures WithoutYields(a + b) == WithoutYields(a) + WithoutYields(b)
    decreases |b|
  {
    if b != [] {
      assert (a + b)[..|a + b| - 1] == a + b[..|b| - 1];
      assert (a + b)[|a + b| - 1] == b[|b| - 1];
      WithoutYieldsAppend(a, b[..|b| - 1]);
    } else {
      assert a + b == a;
    }
  }

  function CountMatched(rs: seq<InjectionResult>): nat {
    if rs == [] then 0 else CountMatched(rs[..|rs| - 1]) + if rs[|rs| - 1].matched then 1 else 0
  }

  lemma MulAtLeast(x: int, b: int)
    requires x >= 1 && b >= 1
    ensures x * b >= b
  {
  }

  lemma DivModUnique(n: int, b: int, q: int, r: int)
    requires b >= 1 && 0 <= r < b && n == q * b + r
    ensures n / b == q && n % b == r
  {
    var q', r' := n / b, n % b;
    assert n == q' * b + r';
    assert (q - q') * b == r' - r;
    if q > q' {
      MulAtLeast(q - q', b);
    } else if q < q' {
      MulAtLeast(q' - q, b);
    }
  }

  /** For b >= 1: `n / b` grows by one exactly at the multiples of b. */
  lemma DivStep(n: nat, b: nat)
    requires n >= 1 && b >= 1
    ensures n / b == (n - 1) / b + (if n % b == 0 then 1 else 0)
  {
    var q, r := (n - 1) / b, (n - 1) % b;
    assert n - 1 == q * b + r && 0 <= r < b;
    if r == b - 1 {
      assert n == (q + 1) * b + 0;
      DivModUnique(n, b, q + 1, 0);
    } else {
      assert n == q * b + (r + 1);
      DivModUnique(n, b, q, r + 1);
    }
  }

  /** A single field never yields or submits by itself, and it dispatches
      two events exactly when it matched. */
  lemma StepCounts(step: Stepper, els: seq<Element>, rule: FieldRule)
    requires WellShaped(step)
    ensures var o := step(els, rule);
            && CountWhere(o.effects, IsYield) == 0
            && CountWhere(o.effects, IsSubmit) == 0
            && CountWhere(o.effects, IsDispatch) == if o.result.matched then 2 else 0
  {
    var o := step(els, rule);
    assert Shaped(els, rule, o);
    if o.effects != [] {
      CountWhereSmall(IsYield, o.effects[0], o.effects[1]);
      CountWhereSmall(IsSubmit, o.effects[0], o.effects[1]);
      CountWhereSmall(IsDispatch, o.effects[0], o.effects[1]);
      assert o.effects == [o.effects[0], o.effects[1]];
    } else {
      CountWhereSmall(IsYield, FrameYield, FrameYield);
    }
  }

  /** The run waits after field `i` exactly when yielding is on and `i + 1`
      is a multiple of a non-zero batch size; the wait is one frame yield. */
  lemma YieldsAfterMultiple(opts: InjectOptions, i: nat)
    ensures YieldsAfter(opts, i) <==>
              opts.allowBatchYield && opts.batchSize != 0 && (i + 1) % Abs(opts.batchSize) == 0
    ensures var pause := if YieldsAfter(opts, i) then [FrameYield] else [];
            && CountWhere(pause, IsYield) == (if YieldsAfter(opts, i) then 1 else 0)
            && CountWhere(pause, IsDispatch) == 0
            && CountWhere(pause, IsSubmit) == 0
  {
    CountWhereSmall(IsYield, FrameYield, FrameYield);
    CountWhereSmall(IsDispatch, FrameYield, FrameYield);
    CountWhereSmall(IsSubmit, FrameYield, FrameYield);
  }

  /** With yielding on and a non-zero batch size the run waits for a frame
      after every |batchSize| fields, so `n / |batchSize|` times in all;
      otherwise it never waits. */
  lemma {:induction false} YieldCount(step: Stepper, els: seq<Element>, rules: seq<FieldRule>, opts: InjectOptions, n: nat)
    requires WellShaped(step) && n <= |rules|
    ensures CountWhere(RunWith(step, els, rules, opts, n).effects, IsYield)
            == if opts.allowBatchYield && opts.batchSize != 0 then n / Abs(opts.batchSize) else 0
    decreases n
  {
    if n > 0 {
      YieldCount(step, els, rules, opts, n - 1);
      var s := RunWith(step, els, rules, opts, n - 1);
      var o := step(s.elements, rules[n - 1]);
      var pause := if YieldsAfter(opts, n - 1) then [FrameYield] else [];
      StepCounts(step, s.elements, rules[n - 1]);
      YieldsAfterMultiple(opts, n - 1);
      CountWhereAppend(s.effects, o.effects, IsYield);
      CountWhereAppend(s.effects + o.effects, pause, IsYield);
      if opts.allowBatchYield && opts.batchSize != 0 {
        DivStep(n, Abs(opts.batchSize));
      }
    }
  }

  /** Whether and how often the run yields changes nothing else: the
      results, the final elements and every other effect are the same. */
  lemma {:induction false} YieldsChangeNothingElse(step: Stepper, els: seq<Element>, rules: seq<FieldRule>, o1: InjectOptions, o2: InjectOptions, n: nat)
    requires n <= |rules|
    ensures RunWith(step, els, rules, o1, n).results == RunWith(step, els, rules, o2, n).results
    ensures RunWith(step, els, rules, o1, n).elements == RunWith(step, els, rules, o2, n).elements
    ensures WithoutYields(RunWith(step, els, rules, o1, n).effects) == WithoutYields(RunWith(step, els, rules, o2, n).effects)
    decreases n
  {
    if n > 0 {
      YieldsChangeNothingElse(step, els, rules, o1, o2, n - 1);
      var s1 := RunWith(step, els, rules, o1, n - 1);
      var s2 := RunWith(step, els, rules, o2, n - 1);
      var o := step(s1.elements, rules[n - 1]);
      var p1 := if YieldsAfter(o1, n - 1) then [FrameYield] else [];
      var p2 := if YieldsAfter(o2, n - 1) then [FrameYield] else [];
      WithoutYieldsAppend(s1.effects + o.effects, p1);
      WithoutYieldsAppend(s2.effects + o.effects, p2);
      WithoutYieldsAppend(s1.effects, o.effects);
      WithoutYieldsAppend(s2.effects, o.effects);
      assert WithoutYields(p1) == [] by { if p1 != [] { assert p1[..0] == []; } }
      assert WithoutYields(p2) == [] by { if p2 != [] { assert p2[..0] == []; } }
    }
  }

  /** Each matched rule dispatches exactly two events and a failed one none;
      the fields themselves never submit. */
  lemma {:induction false} DispatchesPerMatch(step: Stepper, els: seq<Element>, rules: seq<FieldRule>, opts: InjectOptions, n: nat)
    requires WellShaped(step) && n <= |rules|
    ensures var s := RunWith(step, els, rules, opts, n);
            CountWhere(s.effects, IsDispatch) == 2 * CountMatched(s.results)
            && CountWhere(s.effects, IsSubmit) == 0
    decreases n
  {
    if n > 0 {
      DispatchesPerMatch(step, els, rules, opts, n - 1);
      var s := RunWith(step, els, rules, opts, n - 1);
      var o := step(s.elements, rules[n - 1]);
      var pause := if YieldsAfter(opts, n - 1) then [FrameYield] else [];
      var t := RunWith(step, els, rules, opts, n);
      assert t.results[..n - 1] == s.results;
      StepCounts(step, s.elements, rules[n - 1]);
      YieldsAfterMultiple(opts, n - 1);
      CountWhereAppend(s.effects, o.effects, IsDispatch);
      CountWhereAppend(s.effects + o.effects, pause, IsDispatch);
      CountWhereAppend(s.effects, o.effects, IsSubmit);
      CountWhereAppend(s.effects + o.effects, pause, IsSubmit);
    }
  }

  /** `injectPreset` answers one result per rule, in rule order, each of the
      fixed shape, and its frame yields follow the batch size. */
  lemma InjectRunResults(d: Document, cat: Catalog, preset: FormPreset, opts: InjectOptions)
    requires WellFormed(d)
    ensures var s := InjectRun(d, cat, preset, opts);
            && |s.results| == |preset.fields|
            && (forall k :: 0 <= k < |preset.fields| ==> ResultFor(s.results[k], preset.fields[k]))
            && CountWhere(s.effects, IsYield)
               == if opts.allowBatchYield && opts.batchSize != 0 then |preset.fields| / Abs(opts.batchSize) else 0
  {
    var n := |preset.fields|;
    var r := RunWith(Runner(d, cat), d.elements, preset.fields, opts, n);
    RunnerSound(d, cat);
    RunResultsPerRule(Runner(d, cat), d.elements, preset.fields, opts, n);
    YieldCount(Runner(d, cat), d.elements, preset.fields, opts, n);
    var s := InjectRun(d, cat, preset, opts);
    assert s.results == r.results;
    if s.effects != r.effects {
      var tail := s.effects[|r.effects|..];
      assert s.effects == r.effects + tail;
      CountWhereAppend(r.effects, tail, IsYield);
      CountWhereSmall(IsYield, tail[0], tail[0]);
    }
  }

  /** A run asks for at most one submission, only when the preset says so,
      always as its very last effect, and exactly when the filled document
      has a form. */
  lemma SubmitOnceAtEnd(d: Document, cat: Catalog, preset: FormPreset, opts: InjectOptions)
    requires WellFormed(d)
    ensures var s := InjectRun(d, cat, preset, opts);
            var submits := CountWhere(s.effects, IsSubmit);
            && submits <= 1
            && (submits == 1 ==> preset.autoSubmit && IsSubmit(s.effects[|s.effects| - 1]))
            && (preset.autoSubmit ==>
                  (submits == 1 <==> exists j :: 0 <= j < |s.elements| && s.elements[j].tag == FORM))
  {
    var n := |preset.fields|;
    var r := RunWith(Runner(d, cat), d.elements, preset.fields, opts, n);
    RunnerSound(d, cat);
    DispatchesPerMatch(Runner(d, cat), d.elements, preset.fields, opts, n);
    if preset.autoSubmit {
      RunKeepsTree(Runner(d, cat), d.elements, preset.fields, opts, n);
      SameTreeWellFormed(d, r.elements);
      var form := SubmitTarget(d.(elements := r.elements));
      SubmitTargetSpec(d.(elements := r.elements));
      var tail := if form.Some? then [SubmitRequested(form.value)] else [];
      CountWhereAppend(r.effects, tail, IsSubmit);
      if form.Some? {
        CountWhereSmall(IsSubmit, tail[0], tail[0]);
      } else {
        CountWhereSmall(IsSubmit, FrameYield, FrameYield);
      }
    }
  }

  /** A two-rule run: the first rule, its pause, the second rule, its pause. */
  lemma RunTwo(step: Stepper, els: seq<Element>, a: FieldRule, b: FieldRule, opts: InjectOptions)
    ensures var o1 := step(els, a);
            var o2 := step(o1.elements, b);
            RunWith(step, els, [a, b], opts, 2)
            == RunState(o2.elements, [o1.result, o2.result],
                        o1.effects + (if YieldsAfter(opts, 0) then [FrameYield] else [])
                        + o2.effects + (if YieldsAfter(opts, 1) then [FrameYield] else []))
  {
    var o1 := step(els, a);
    assert RunWith(step, els, [a, b], opts, 1)
           == RunState(o1.elements, [o1.result], o1.effects + (if YieldsAfter(opts, 0) then [FrameYield] else []));
  }

  /** A rule whose hint is no selector match but the `name` of a text-like
      control writes its value there and fires the two events. */
  lemma FillByName(d: Document, cat: Catalog, rule: FieldRule, i: nat)
    requires !d.css(d.elements, rule.selector).Match?
    requires FirstWithAttr(d.elements, "name", rule.selector) == Some(i)
    requires rule.fieldType != Checkbox && d.elements[i].tag in AcceptedTags(rule.fieldType)
    ensures FieldStep(d, cat, rule)
            == FieldOutcome(InjectionResult(rule.id, true, rule.selector, None),
                            d.elements[i := d.elements[i].(value := Materialize(cat, rule))],
                            WriteEvents(i))
  {
    NameBeatsLabel(d, rule.selector, i);
  }

  /** The two-field example: both inputs are found by their `name`, both
      literals are written, and each input receives one `input` and one
      `change` event. */
  lemma TwoFieldExample()
    ensures
      var nameInput := Element(INPUT, map["name" := "name"], None, "", "", false);
      var emailInput := Element(INPUT, map["name" := "email"], None, "", "", false);
      var d := Document([nameInput, emailInput], (els: seq<Element>, s: string) => NoMatch, None);
      var a := FieldRule("a", "name", Text, Static, Some("Jane Doe"), None);
      var b := FieldRule("b", "email", Email, Static, Some("jane@example.com"), None);
      var preset := FormPreset("p", "Example", ".*", false, [a, b]);
      var cat := Catalog(Undefined, (id: nat) => Threw);
      var s := InjectRun(d, cat, preset, DefaultOptions);
      && WellFormed(d)
      && s.results == [InjectionResult("a", true, "name", None), InjectionResult("b", true, "email", None)]
      && s.elements == [nameInput.(value := "Jane Doe"), emailInput.(value := "jane@example.com")]
      && s.effects == WriteEvents(0) + WriteEvents(1)
  {
    var nameInput := Element(INPUT, map["name" := "name"], None, "", "", false);
    var emailInput := Element(INPUT, map["name" := "email"], None, "", "", false);
    var d := Document([nameInput, emailInput], (els: seq<Element>, s: string) => NoMatch, None);
    var a := FieldRule("a", "name", Text, Static, Some("Jane Doe"), None);
    var b := FieldRule("b", "email", Email, Static, Some("jane@example.com"), None);
    var cat := Catalog(Undefined, (id: nat) => Threw);
    assert HasAttrValue(d.elements[0], "name", "name");
    FillByName(d, cat, a, 0);
    var els1 := [nameInput.(value := "Jane Doe"), emailInput];
    assert d.elements[0 := nameInput.(value := Materialize(cat, a))] == els1;
    var d1 := d.(elements := els1);
    assert !HasAttrValue(d1.elements[0], "name", "email");
    assert HasAttrValue(d1.elements[1], "name", "email");
    assert FirstWhere(2, (j: nat) => j < 2 && HasAttrValue(els1[j], "name", "email"), 1) == Some(1);
    FillByName(d1, cat, b, 1);
    assert d == d.(elements := d.elements);
    RunTwo(Runner(d, cat), d.elements, a, b, DefaultOptions);
    assert !YieldsAfter(DefaultOptions, 0) && !YieldsAfter(DefaultOptions, 1);
  }

  /* ------------------------------------------------------- the mutable page */

  /** Resolving a generator path from the library root, segment by segment. */
  method ResolveFakerMethod(root: JsValue, path: string) returns (r: JsValue)
    ensures r == Walk(root, Segments(path))
  {
    var segments := Segments(path);
    var current := root;
    for i := 0 to |segments|
      invariant Walk(root, segments) == Walk(current, segments[i..])
    {
      assert segments[i..][1..] == segments[i + 1..];
      if segments[i] == "" { return Undefined; }
      if !TypeofObject(current) || current.Null? { return Undefined; }
      current := Get(current, segments[i]);
    }
    assert segments[|segments|..] == [];
    return current;
  }

  /** `buildValue(rule)`. */
  method BuildValue(cat: Catalog, rule: FieldRule) returns (v: string)
    ensures v == Materialize(cat, rule)
  {
    if rule.valueStrategy == Static {
      return rule.staticValue.GetOr("");
    }
    if rule.fakerMethod.None? || rule.fakerMethod.value == "" {
      return "";
    }
    var method_ := ResolveFakerMethod(cat.root, rule.fakerMethod.value);
    if method_.Function? {
      match cat.call(method_.id)
      case Returned(text) => return text;
      case ReturnedNullish => return "";
      case Threw => return "";
    }
    return "";
  }

  /** The page the content script works on: its elements (whose `value` and
      `checked` the script writes), the selector engine, the focused element,
      and the log of what the page has observed. */
  class Page {
    var elements: seq<Element>
    const css: CssOracle
    const active: Option<nat>
    var log: seq<Effect>

    constructor (elements: seq<Element>, css: CssOracle, active: Option<nat>)
      ensures this.elements == elements && this.css == css && this.active == active && log == []
    {
      this.elements := elements;
      this.css := css;
      this.active := active;
      log := [];
    }

    function Doc(): Document
      reads this
    {
      Document(elements, css, active)
    }

    ghost predicate Valid()
      reads this
    {
      WellFormed(Doc())
    }

    /** `findByLabelText(text)`: scan the labels in document order. */
    method FindByLabelText(text: string) returns (r: Option<nat>)
      ensures r == LabelSearch(elements, text)
    {
      var k := 0;
      while k < |elements|
        invariant 0 <= k <= |elements|
        invariant LabelSearch(elements, text) == LabelSearchFrom(elements, text, k)
      {
        LabelSearchFromStep(elements, text, k);
        if elements[k].tag == LABEL {
          var labelText := Trim(elements[k].text);
          if labelText != "" && FuzzyEquals(labelText, text) {
            var target := AttrOrEmpty(elements[k], "for");
            var byFor := ById(elements, target);
            if byFor.Some? {
              return byFor;
            }
            var nested := NestedControl(elements, k);
            if nested.Some? {
              return nested;
            }
          }
        }
        k := k + 1;
      }
      return None;
    }

    /** `findElement(hint)`: the five stages, stopping at the first hit. */
    method FindElement(hint: string) returns (r: Option<nat>)
      requires Valid()
      ensures r == Resolve(Doc(), hint)
    {
      var byCss := SafeQuery(Doc(), hint);
      if byCss.Some? {
        return byCss;
      }
      var byName := FirstWithAttr(elements, "name", hint);
      if byName.Some? {
        return byName;
      }
      var byId := ById(elements, hint);
      if byId.Some? {
        return byId;
      }
      var byPlaceholder := FirstWithAttr(elements, "placeholder", hint);
      if byPlaceholder.Some? {
        return byPlaceholder;
      }
      var byLabel := FindByLabelText(hint);
      if byLabel.Some? {
        return byLabel;
      }
      return None;
    }

    /** Dispatches the named events, in order, at element `target`. */
    method DispatchEvents(target: nat, names: seq<EventName>)
      modifies this`log
      ensures log == old(log) + seq(|names|, (k: int) requires 0 <= k < |names| => Dispatched(target, names[k]))
    {
      for k := 0 to |names|
        invariant log == old(log) + seq(k, (j: int) requires 0 <= j < k => Dispatched(target, names[j]))
      {
        log := log + [Dispatched(target, names[k])];
      }
    }

    /** `applyValue`: writes `v` into element `i` if it accepts field type `t`,
        then dispatches `input` and `change`. */
    method ApplyValue(i: nat, t: FieldType, v: string) returns (applied: bool)
      requires i < |elements|
      modifies this`elements, this`log
      ensures applied <==> ApplySpec(old(elements[i]), t, v).Some?
      ensures applied ==> elements == old(elements)[i := ApplySpec(old(elements[i]), t, v).value]
                          && log == old(log) + WriteEvents(i)
      ensures !applied ==> elements == old(elements) && log == old(log)
    {
      var e := elements[i];
      match t {
        case Checkbox =>
          if !IsInput(e) { return false; }
          elements := elements[i := e.(checked := v == "true" || v == "1" || v == "on")];
        case Select =>
          if !IsSelect(e) { return false; }
          elements := elements[i := e.(value := v)];
        case _ =>
          if !(IsInput(e) || IsTextArea(e)) { return false; }
          elements := elements[i := e.(value := v)];
      }
      DispatchEvents(i, [InputEvent, ChangeEvent]);
      return true;
    }

    /** `injectField(rule)`. */
    method InjectField(cat: Catalog, rule: FieldRule) returns (result: InjectionResult)
      requires Valid()
      modifies this`elements, this`log
      ensures Valid()
      ensures var o := FieldStep(old(Doc()), cat, rule);
              result == o.result && elements == o.elements && log == old(log) + o.effects
    {
      var target := FindElement(rule.selector);
      if target.None? {
        return InjectionResult(rule.id, false, rule.selector, Some(NotFoundReason));
      }
      var value := BuildValue(cat, rule);
      var applied := ApplyValue(target.value, rule.fieldType, value);
      if !applied {
        return InjectionResult(rule.id, false, rule.selector, Some(UnsupportedReason));
      }
      SameTreeWellFormed(old(Doc()), elements);
      return InjectionResult(rule.id, true, rule.selector, None);
    }

    /** `submitNearestForm()`. */
    method SubmitNearestForm()
      requires Valid()
      modifies this`log
      ensures var form := SubmitTarget(Doc());
              log == old(log) + if form.Some? then [SubmitRequested(form.value)] else []
    {
      var near := None;
      if active.Some? {
        near := Closest(elements, active.value, FORM);
      }
      var form := if near.Some? then near else FirstForm(elements);
      if form.Some? {
        log := log + [SubmitRequested(form.value)];
      }
    }

    /** One turn of the field loop of `injectPreset`: rule `i`, then the
        frame yield when the options ask for one after it. */
    method InjectNext(cat: Catalog, rules: seq<FieldRule>, opts: InjectOptions, i: nat, ghost d0: Document, ghost log0: seq<Effect>)
      returns (result: InjectionResult)
      requires i < |rules|
      requires Valid() && Doc() == d0.(elements := elements)
      requires var s := RunWith(Runner(d0, cat), d0.elements, rules, opts, i);
               elements == s.elements && log == log0 + s.effects
      modifies this`elements, this`log
      ensures Valid() && Doc() == d0.(elements := elements)
      ensures var s := RunWith(Runner(d0, cat), d0.elements, rules, opts, i + 1);
              elements == s.elements && log == log0 + s.effects
      ensures RunWith(Runner(d0, cat), d0.elements, rules, opts, i + 1).results
              == RunWith(Runner(d0, cat), d0.elements, rules, opts, i).results + [result]
    {
      ghost var step := Runner(d0, cat);
      ghost var s := RunWith(step, d0.elements, rules, opts, i);
      ghost var o := step(s.elements, rules[i]);
      assert o == FieldStep(Doc(), cat, rules[i]);
      result := InjectField(cat, rules[i]);
      ghost var pause: seq<Effect> := [];
      if opts.allowBatchYield && JsRemainder(i + 1, opts.batchSize) == Some(0) {
        log := log + [FrameYield];
        pause := [FrameYield];
      }
      AppendAssoc(log0, s.effects, o.effects, pause);
      assert RunWith(step, d0.elements, rules, opts, i + 1)
             == RunState(o.elements, s.results + [o.result], s.effects + o.effects + pause);
    }

    /** The field loop of `injectPreset`, rule by rule. */
    method InjectFields(cat: Catalog, rules: seq<FieldRule>, opts: InjectOptions) returns (results: seq<InjectionResult>)
      requires Valid()
      modifies this`elements, this`log
      ensures Valid() && Doc() == old(Doc()).(elements := elements)
      ensures var s := RunWith(Runner(old(Doc()), cat), old(elements), rules, opts, |rules|);
              results == s.results && elements == s.elements && log == old(log) + s.effects
    {
      ghost var d0 := Doc();
      ghost var log0 := log;
      results := [];
      var i := 0;
      while i < |rules|
        invariant 0 <= i <= |rules|
        invariant Valid() && Doc() == d0.(elements := elements)
        invariant var s := RunWith(Runner(d0, cat), d0.elements, rules, opts, i);
                  results == s.results && elements == s.elements && log == log0 + s.effects
      {
        var result := InjectNext(cat, rules, opts, i, d0, log0);
        results := results + [result];
        i := i + 1;
      }
    }

    /** `injectPreset(preset, options)`: the options the caller leaves out
        take their defaults. */
    method InjectPreset(cat: Catalog, preset: FormPreset, allowBatchYield: Option<bool>, batchSize: Option<int>)
      returns (results: seq<InjectionResult>)
      requires Valid()
      modifies this`elements, this`log
      ensures Valid()
      ensures var s := InjectRun(old(Doc()), cat, preset, ResolveOptions(allowBatchYield, batchSize));
              results == s.results && elements == s.elements && log == old(log) + s.effects
    {
      var opts := ResolveOptions(allowBatchYield, batchSize);
      InjectRunUnfold(Doc(), cat, preset, opts);
      results := InjectFields(cat, preset.fields, opts);
      if preset.autoSubmit {
        SubmitNearestForm();
      }
    }
  }
}
