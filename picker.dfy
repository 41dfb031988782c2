/** The element picker of the content script: the selector and the label it
    synthesises for a clicked element, and the pick session, which tracks
    the element under the mouse until a click commits it or Escape cancels.

    `CSS.escape` is not modelled: selectors are built with the fallback
    escaper, which puts a backslash before every `"` and `\`. */
module Picker {
  import opened Wrappers
  import opened Strings
  import opened Dom

  /** What a pick resolves with; `label` is absent after a cancel or when
      nothing was under the mouse. */
  datatype PickResult = PickResult(selector: string, caption: Option<string>)

  /* ------------------------------------------------------- selector synthesis */

  /** `[name="<escaped value>"]`. */
  function AttrSelector(name: string, v: string): string {
    "[" + name + "=\"" + CssEscape(v) + "\"]"
  }

  /** The attributes the selector is built from, in the order they are tried. */
  const SelectorAttrs: seq<string> := ["id", "name", "data-testid", "placeholder", "aria-label", "type"]

  /** The selector built from attribute `attr` with the non-empty value `v`. */
  function SelectorFor(attr: string, v: string): string {
    if attr == "id" then "#" + CssEscape(v)
    else if attr == "type" then "input" + AttrSelector("type", v)
    else AttrSelector(attr, v)
  }

  /** The indices at `from` or later of the children of `p` with tag `tag`,
      in document order (`parent.children` filtered by tag name). */
  function SiblingsOfType(els: seq<Element>, p: nat, tag: string, from: nat): seq<nat>
    decreases |els| - from
  {
    if from >= |els| then []
    else (if els[from].parent == Some(p) && els[from].tag == tag then [from] else [])
         + SiblingsOfType(els, p, tag, from + 1)
  }

  /** `s.indexOf(x)`, None standing for -1. */
  function IndexOf(s: seq<nat>, x: nat): (r: Option<nat>)
    ensures r.Some? ==> r.value < |s| && s[r.value] == x
    ensures r.None? ==> x !in s
  {
    if s == [] then None
    else if s[0] == x then Some(0)
    else
      match IndexOf(s[1..], x)
      case Some(k) => Some(k + 1)
      case None => None
  }

  /** The `k` of `:nth-of-type(k)`: one more than the element's position
      among its parent's children of the same tag, or 1 if it is not found
      there. */
  function NthOfType(els: seq<Element>, i: nat): nat
    requires i < |els| && els[i].parent.Some?
  {
    match IndexOf(SiblingsOfType(els, els[i].parent.value, els[i].tag, 0), i)
    case Some(k) => k + 1
    case None => 1
  }

  /** `buildNthOfTypeSelector(element)`. */
  function BuildNthOfTypeSelector(els: seq<Element>, i: nat): string
    requires i < |els|
  {
    var tag := Lower(els[i].tag);
    if els[i].parent.None? then tag
    else tag + ":nth-of-type(" + NatToString(NthOfType(els, i)) + ")"
  }

  /** `buildSelector(element)`: for a control, the first non-empty one of
      its id, name, test id, placeholder, ARIA label and type attributes;
      otherwise, and for a control with none of them, the nth-of-type path. */
  function BuildSelector(els: seq<Element>, i: nat): string
    requires i < |els|
  {
    var e := els[i];
    if !IsControl(e) then BuildNthOfTypeSelector(els, i)
    else if AttrOrEmpty(e, "id") != "" then "#" + CssEscape(AttrOrEmpty(e, "id"))
    else if AttrOrEmpty(e, "name") != "" then AttrSelector("name", AttrOrEmpty(e, "name"))
    else if AttrOrEmpty(e, "data-testid") != "" then AttrSelector("data-testid", AttrOrEmpty(e, "data-testid"))
    else if AttrOrEmpty(e, "placeholder") != "" then AttrSelector("placeholder", AttrOrEmpty(e, "placeholder"))
    else if AttrOrEmpty(e, "aria-label") != "" then AttrSelector("aria-label", AttrOrEmpty(e, "aria-label"))
    else if AttrOrEmpty(e, "type") != "" then "input" + AttrSelector("type", AttrOrEmpty(e, "type"))
    else BuildNthOfTypeSelector(els, i)
  }

  /** `buildLabel(element)`: for a control, the first non-empty one of its
      ARIA label, placeholder and name; otherwise the lower-case tag name. */
  function BuildLabel(els: seq<Element>, i: nat): string
    requires i < |els|
  {
    var e := els[i];
    if IsControl(e) && AttrOrEmpty(e, "aria-label") != "" then AttrOrEmpty(e, "aria-label")
    else if IsControl(e) && AttrOrEmpty(e, "placeholder") != "" then AttrOrEmpty(e, "placeholder")
    else if IsControl(e) && AttrOrEmpty(e, "name") != "" then AttrOrEmpty(e, "name")
    else Lower(e.tag)
  }

  /* ------------------------------------------------- facts about the synthesis */

  /** A control's selector comes from the first attribute, in priority
      order, that is present and non-empty. */
  lemma BuildSelectorPriority(els: seq<Element>, i: nat, k: nat)
    requires i < |els| && IsControl(els[i])
    requires k < |SelectorAttrs| && AttrOrEmpty(els[i], SelectorAttrs[k]) != ""
    requires forall j :: 0 <= j < k ==> AttrOrEmpty(els[i], SelectorAttrs[j]) == ""
    ensures BuildSelector(els, i) == SelectorFor(SelectorAttrs[k], AttrOrEmpty(els[i], SelectorAttrs[k]))
  {
    var a := SelectorAttrs;
    if k > 0 { assert AttrOrEmpty(els[i], a[0]) == ""; }
    if k > 1 { assert AttrOrEmpty(els[i], a[1]) == ""; }
    if k > 2 { assert AttrOrEmpty(els[i], a[2]) == ""; }
    if k > 3 { assert AttrOrEmpty(els[i], a[3]) == ""; }
    if k > 4 { assert AttrOrEmpty(els[i], a[4]) == ""; }
  }

  /** Elements other than controls, and controls without any of the six
      attributes, get the nth-of-type path. */
  lemma BuildSelectorFallback(els: seq<Element>, i: nat)
    requires i < |els|
    requires !IsControl(els[i]) || forall k :: 0 <= k < |SelectorAttrs| ==> AttrOrEmpty(els[i], SelectorAttrs[k]) == ""
    ensures BuildSelector(els, i) == BuildNthOfTypeSelector(els, i)
  {
    if IsControl(els[i]) {
      var a := SelectorAttrs;
      assert AttrOrEmpty(els[i], a[0]) == "" && AttrOrEmpty(els[i], a[1]) == "" && AttrOrEmpty(els[i], a[2]) == "";
      assert AttrOrEmpty(els[i], a[3]) == "" && AttrOrEmpty(els[i], a[4]) == "" && AttrOrEmpty(els[i], a[5]) == "";
    }
  }

  /** The attribute selectors quote the escaped value so that a CSS reader
      gets back exactly the value, and the closing `]` right after it. */
  lemma AttrSelectorReadsBack(name: string, v: string)
    requires forall k :: 0 <= k < |v| ==> !IsCssNewline(v[k])
    ensures var opening := "[" + name + "=\"";
            var s := AttrSelector(name, v);
            opening <= s && ReadCssString(s[|opening|..]) == Some((v, "]"))
  {
    var opening := "[" + name + "=\"";
    var s := AttrSelector(name, v);
    assert s == opening + (CssEscape(v) + ['"'] + "]");
    assert s[|opening|..] == CssEscape(v) + ['"'] + "]";
    CssEscapeReadBack(v, "]");
  }

  lemma {:induction false} SiblingsOfTypeMembers(els: seq<Element>, p: nat, tag: string, from: nat)
    ensures forall x :: x in SiblingsOfType(els, p, tag, from) <==>
              from <= x < |els| && els[x].parent == Some(p) && els[x].tag == tag
    decreases |els| - from
  {
    if from < |els| {
      SiblingsOfTypeMembers(els, p, tag, from + 1);
    }
  }

  /** The siblings from `from` on split at `i` into those before `i`, which
      are the siblings within the first `i` elements, and those from `i` on. */
  lemma {:induction false} SiblingsOfTypeSplit(els: seq<Element>, p: nat, tag: string, from: nat, i: nat)
    requires from <= i <= |els|
    ensures SiblingsOfType(els, p, tag, from) == SiblingsOfType(els[..i], p, tag, from) + SiblingsOfType(els, p, tag, i)
    decreases i - from
  {
    if from < i {
      SiblingsOfTypeSplit(els, p, tag, from + 1, i);
      assert els[..i][from] == els[from];
    }
  }

  lemma {:induction false} IndexOfAppend(a: seq<nat>, b: seq<nat>, x: nat)
    requires x !in a && x in b
    ensures IndexOf(a + b, x) == Some(|a| + IndexOf(b, x).value)
    decreases |a|
  {
    if a == [] {
      assert a + b == b;
    } else {
      assert (a + b)[1..] == a[1..] + b;
      IndexOfAppend(a[1..], b, x);
    }
  }

  /** The `k` of `:nth-of-type(k)` is one more than the number of children
      of the same parent with the same tag that come before the element:
      the element is always among its parent's children, so the fallback 1
      is used only for a first such child. */
  lemma NthOfTypeCounts(els: seq<Element>, i: nat)
    requires i < |els| && els[i].parent.Some?
    ensures NthOfType(els, i) == |SiblingsOfType(els[..i], els[i].parent.value, els[i].tag, 0)| + 1
  {
    var p, tag := els[i].parent.value, els[i].tag;
    SiblingsOfTypeSplit(els, p, tag, 0, i);
    var before := SiblingsOfType(els[..i], p, tag, 0);
    var rest := SiblingsOfType(els, p, tag, i);
    SiblingsOfTypeMembers(els[..i], p, tag, 0);
    assert rest == [i] + SiblingsOfType(els, p, tag, i + 1);
    IndexOfAppend(before, rest, i);
  }

  /** Two different children of one parent with the same tag get different
      nth-of-type selectors. */
  lemma NthOfTypeDistinct(els: seq<Element>, i: nat, j: nat)
    requires i < |els| && j < |els| && i != j
    requires els[i].parent.Some? && els[i].parent == els[j].parent && els[i].tag == els[j].tag
    ensures NthOfType(els, i) != NthOfType(els, j)
    ensures BuildNthOfTypeSelector(els, i) != BuildNthOfTypeSelector(els, j)
  {
    var s := SiblingsOfType(els, els[i].parent.value, els[i].tag, 0);
    SiblingsOfTypeMembers(els, els[i].parent.value, els[i].tag, 0);
    assert i in s && j in s;
    var ni, nj := NthOfType(els, i), NthOfType(els, j);
    var pre := Lower(els[i].tag) + ":nth-of-type(";
    var a, b := NatToString(ni), NatToString(nj);
    if BuildNthOfTypeSelector(els, i) == BuildNthOfTypeSelector(els, j) {
      assert pre + a + ")" == pre + b + ")";
      assert |a| == |b|;
      assert a == (pre + a + ")")[|pre|..|pre| + |a|];
      assert b == (pre + b + ")")[|pre|..|pre| + |b|];
      NatToStringInjective(ni, nj);
    }
  }

  /** The synthesised selector is never empty for an element with a tag. */
  lemma BuildSelectorNonEmpty(els: seq<Element>, i: nat)
    requires i < |els| && els[i].tag != ""
    ensures BuildSelector(els, i) != ""
  {
    assert |Lower(els[i].tag)| > 0;
  }

  /** The label is never empty for an element with a tag, and for a control
      it is its ARIA label, else its placeholder, else its name when one of
      them is non-empty. */
  lemma BuildLabelChoice(els: seq<Element>, i: nat)
    requires i < |els| && els[i].tag != ""
    ensures BuildLabel(els, i) != ""
    ensures var e := els[i];
            var aria, placeholder, name := AttrOrEmpty(e, "aria-label"), AttrOrEmpty(e, "placeholder"), AttrOrEmpty(e, "name");
            && (IsControl(e) && aria != "" ==> BuildLabel(els, i) == aria)
            && (IsControl(e) && aria == "" && placeholder != "" ==> BuildLabel(els, i) == placeholder)
            && (IsControl(e) && aria == "" && placeholder == "" && name != "" ==> BuildLabel(els, i) == name)
            && (IsControl(e) && aria == "" && placeholder == "" && name == "" ==> BuildLabel(els, i) == Lower(e.tag))
    ensures !IsControl(els[i]) ==> BuildLabel(els, i) == Lower(els[i].tag)
  {
    assert |Lower(els[i].tag)| > 0;
  }

  /* ----------------------------------------------------------- the session */

  /** A box in CSS pixels. */
  datatype Rect = Rect(top: int, left: int, width: int, height: int)

  /** The overlay box for a hovered element: each coordinate at least 0. */
  function Clamp(r: Rect): (b: Rect)
    ensures b.top >= 0 && b.left >= 0 && b.width >= 0 && b.height >= 0
    ensures r.top >= 0 ==> b.top == r.top
    ensures r.left >= 0 ==> b.left == r.left
    ensures r.width >= 0 ==> b.width == r.width
    ensures r.height >= 0 ==> b.height == r.height
  {
    Rect(if r.top < 0 then 0 else r.top, if r.left < 0 then 0 else r.left,
         if r.width < 0 then 0 else r.width, if r.height < 0 then 0 else r.height)
  }

  /** The capture listeners the session installs on the window. */
  datatype Listener = MoveListener | ClickListener | KeyListener

  const AllListeners: set<Listener> := {MoveListener, ClickListener, KeyListener}

  /** What the page sends while picking. A target of None is a null target
      or one that is not an element. */
  datatype PageEvent = MouseMove(moveTarget: Option<nat>, rect: Rect) | Click(clickTarget: Option<nat>) | KeyDown(key: string)

  /** What the handlers do to the event itself. */
  datatype EventEffect = PreventDefault | StopPropagation

  /** The targets of the events are elements of the document. */
  predicate EventsInRange(els: seq<Element>, events: seq<PageEvent>) {
    forall k :: 0 <= k < |events| ==>
      match events[k]
      case MouseMove(t, _) => t.Some? ==> t.value < |els|
      case Click(t) => t.Some? ==> t.value < |els|
      case KeyDown(_) => true
  }

  lemma EventsInRangeSuffix(els: seq<Element>, events: seq<PageEvent>, k: nat)
    requires EventsInRange(els, events) && k <= |events|
    ensures EventsInRange(els, events[k..])
  {
    forall j | 0 <= j < |events| - k ensures events[k..][j] == events[k + j] { }
  }

  /** What a click commits: the clicked element, else the last element the
      mouse was over, else nothing. */
  function ClickResult(els: seq<Element>, target: Option<nat>, current: Option<nat>): PickResult
    requires target.Some? ==> target.value < |els|
    requires current.Some? ==> current.value < |els|
  {
    var t := if target.Some? then target else current;
    if t.Some? then PickResult(BuildSelector(els, t.value), Some(BuildLabel(els, t.value)))
    else PickResult("", None)
  }

  /** A click gives the empty selector and no label exactly when there was
      neither a clicked element nor a tracked one. */
  lemma ClickResultEmpty(els: seq<Element>, target: Option<nat>, current: Option<nat>)
    requires TreeOrdered(els)
    requires target.Some? ==> target.value < |els|
    requires current.Some? ==> current.value < |els|
    ensures var r := ClickResult(els, target, current);
            (r.selector == "" <==> target.None? && current.None?)
            && (r.caption.None? <==> target.None? && current.None?)
  {
    var t := if target.Some? then target else current;
    if t.Some? {
      BuildSelectorNonEmpty(els, t.value);
    }
  }

  /** How a session settles, given the events it sees in order and the
      element it is tracking: the first click or Escape decides, moves only
      change the tracked element, other keys are ignored. */
  function Settle(els: seq<Element>, events: seq<PageEvent>, current: Option<nat>): Option<PickResult>
    requires EventsInRange(els, events)
    requires current.Some? ==> current.value < |els|
    decreases |events|
  {
    if events == [] then None
    else
      assert EventsInRange(els, events[1..]) by {
        forall k | 0 <= k < |events| - 1 ensures events[1..][k] == events[k + 1] { }
      }
      match events[0]
      case MouseMove(t, _) => Settle(els, events[1..], if t.Some? then t else current)
      case Click(t) => Some(ClickResult(els, t, current))
      case KeyDown(k) => if k == "Escape" then Some(PickResult("", None)) else Settle(els, events[1..], current)
  }

  /** Mouse moves alone never settle a session. */
  lemma {:induction false} MovesNeverSettle(els: seq<Element>, events: seq<PageEvent>, current: Option<nat>)
    requires EventsInRange(els, events)
    requires current.Some? ==> current.value < |els|
    requires forall k :: 0 <= k < |events| ==> events[k].MouseMove?
    ensures Settle(els, events, current).None?
    decreases |events|
  {
    if events != [] {
      var t := events[0].moveTarget;
      assert EventsInRange(els, events[1..]) by {
        forall k | 0 <= k < |events| - 1 ensures events[1..][k] == events[k + 1] { }
      }
      MovesNeverSettle(els, events[1..], if t.Some? then t else current);
    }
  }

  /** Once a session has settled, later events change nothing: exactly one
      terminal event decides the pick. */
  lemma {:induction false} SettleIgnoresLater(els: seq<Element>, a: seq<PageEvent>, b: seq<PageEvent>, current: Option<nat>)
    requires EventsInRange(els, a + b)
    requires current.Some? ==> current.value < |els|
    requires EventsInRange(els, a) && Settle(els, a, current).Some?
    ensures Settle(els, a + b, current) == Settle(els, a, current)
    decreases |a|
  {
    assert (a + b)[0] == a[0];
    if a[0].MouseMove? || (a[0].KeyDown? && a[0].key != "Escape") {
      var t := a[0];
      var c := if t.MouseMove? && t.moveTarget.Some? then t.moveTarget else current;
      assert (a + b)[1..] == a[1..] + b;
      assert EventsInRange(els, a[1..]) by {
        forall k | 0 <= k < |a| - 1 ensures a[1..][k] == a[k + 1] { }
      }
      assert EventsInRange(els, a[1..] + b) by {
        forall k | 0 <= k < |a + b| - 1 ensures (a[1..] + b)[k] == (a + b)[k + 1] { }
      }
      SettleIgnoresLater(els, a[1..], b, c);
    }
  }

  /** A running pick: the tracked element, the overlay and its box, the
      installed listeners, the effects on the delivered events, and the
      value the pick resolved with, if any. */
  class PickSession {
    const els: seq<Element>
    var current: Option<nat>
    var overlayAttached: bool
    var box: Rect
    var listeners: set<Listener>
    var effects: seq<EventEffect>
    var outcome: Option<PickResult>

    /** Listening with the overlay shown until the pick resolves; afterwards
        neither. */
    ghost predicate Valid()
      reads this
    {
      && (current.Some? ==> current.value < |els|)
      && (outcome.None? ==> overlayAttached && listeners == AllListeners)
      && (outcome.Some? ==> !overlayAttached && listeners == {})
    }

    /** `pickElement()`: show the overlay and install the three listeners. */
    constructor(els: seq<Element>)
      ensures Valid()
      ensures this.els == els && current.None? && outcome.None? && effects == []
    {
      this.els := els;
      current := None;
      overlayAttached := true;
      box := Rect(0, 0, 0, 0);
      listeners := AllListeners;
      effects := [];
      outcome := None;
    }

    /** `cleanup()`: remove the overlay and all three listeners. */
    method Cleanup()
      modifies this`overlayAttached, this`listeners
      ensures !overlayAttached && listeners == {}
    {
      overlayAttached := false;
      listeners := {};
    }

    /** `handleMove`: track an element target and cover it with the box. */
    method HandleMove(target: Option<nat>, rect: Rect)
      requires Valid() && outcome.None?
      requires target.Some? ==> target.value < |els|
      modifies this`current, this`box
      ensures Valid()
      ensures target.None? ==> current == old(current) && box == old(box)
      ensures target.Some? ==> current == target && box == Clamp(rect)
    {
      if target.None? {
        return;
      }
      current := target;
      box := Clamp(rect);
    }

    /** `handleClick`: suppress the click, commit its target or the tracked
        element, tear down and resolve. */
    method HandleClick(target: Option<nat>)
      requires Valid() && outcome.None?
      requires target.Some? ==> target.value < |els|
      modifies this`effects, this`overlayAttached, this`listeners, this`outcome
      ensures Valid()
      ensures effects == old(effects) + [PreventDefault, StopPropagation]
      ensures outcome == Some(ClickResult(els, target, current))
    {
      effects := effects + [PreventDefault, StopPropagation];
      var t := if target.Some? then target else current;
      var selector := if t.Some? then BuildSelector(els, t.value) else "";
      var caption := if t.Some? then Some(BuildLabel(els, t.value)) else None;
      Cleanup();
      outcome := Some(PickResult(selector, caption));
    }

    /** `handleKeydown`: Escape cancels with an empty selector; any other
        key is ignored. */
    method HandleKeydown(key: string)
      requires Valid() && outcome.None?
      modifies this`effects, this`overlayAttached, this`listeners, this`outcome
      ensures Valid()
      ensures key == "Escape" ==> effects == old(effects) + [PreventDefault] && outcome == Some(PickResult("", None))
      ensures key != "Escape" ==> effects == old(effects) && outcome.None?
                                  && overlayAttached == old(overlayAttached) && listeners == old(listeners)
    {
      if key == "Escape" {
        effects := effects + [PreventDefault];
        Cleanup();
        outcome := Some(PickResult("", None));
      }
    }

    /** The window delivers an event to the listener installed for it, if
        there is one. */
    method Deliver(ev: PageEvent)
      requires Valid()
      requires EventsInRange(els, [ev])
      modifies this`current, this`box, this`effects, this`overlayAttached, this`listeners, this`outcome
      ensures Valid()
      ensures old(outcome).Some? ==> outcome == old(outcome) && current == old(current)
      ensures old(outcome).None? ==> outcome == Settle(els, [ev], old(current))
      ensures old(outcome).None? && outcome.None? && ev.MouseMove? && ev.moveTarget.Some? ==> current == ev.moveTarget
      ensures old(outcome).None? && outcome.None? && !(ev.MouseMove? && ev.moveTarget.Some?) ==> current == old(current)
    {
      assert [ev][0] == ev && [ev][1..] == [];
      match ev {
        case MouseMove(t, r) =>
          if MoveListener in listeners { HandleMove(t, r); }
        case Click(t) =>
          if ClickListener in listeners { HandleClick(t); }
        case KeyDown(k) =>
          if KeyListener in listeners { HandleKeydown(k); }
      }
    }

    /** A whole session: the events in order settle the pick exactly as
        `Settle` says, whatever follows the deciding event. */
    method DeliverAll(events: seq<PageEvent>)
      requires Valid() && outcome.None?
      requires EventsInRange(els, events)
      modifies this`current, this`box, this`effects, this`overlayAttached, this`listeners, this`outcome
      ensures Valid()
      ensures outcome == Settle(els, events, old(current))
    {
      var k := 0;
      while k < |events|
        invariant 0 <= k <= |events| && Valid()
        invariant EventsInRange(els, events[k..])
        invariant outcome.None? ==> Settle(els, events, old(current)) == Settle(els, events[k..], current)
        invariant outcome.Some? ==> outcome == Settle(els, events, old(current))
      {
        assert events[k..][0] == events[k];
        assert events[k..][1..] == events[k + 1..];
        assert EventsInRange(els, [events[k]]) by {
          assert [events[k]][0] == events[k..][0];
        }
        EventsInRangeSuffix(els, events, k + 1);
        Deliver(events[k]);
        k := k + 1;
      }
      assert events[k..] == [];
    }
  }
}
