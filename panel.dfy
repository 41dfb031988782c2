/** The floating panel the content script opens on the page: a list of
    field rows (label, value, type and selector inputs with pick and remove
    buttons), an auto-submit checkbox, and buttons to add a row and to
    inject. Its HTML and styling are not modelled; its state is. */
module Panel {
  import opened Wrappers
  import opened Strings
  import opened Types
  import opened Dom
  import opened Picker
  import opened Injector

  /* ------------------------------------------------------- the single panel */

  /** The id of the panel's host element. */
  const PanelId := "dev-form-filler-panel"

  /** The host element appended to `document.documentElement`, the element
      at index `root` when there is one. */
  function PanelHost(root: Option<nat>): Element {
    Element("DIV", map["id" := PanelId], root, "", "", false)
  }

  /** The document's elements after `openPanel`: unchanged when an element
      with the panel's id exists, else with the host appended. */
  function WithPanel(els: seq<Element>, root: Option<nat>): seq<Element> {
    if ById(els, PanelId).Some? then els else els + [PanelHost(root)]
  }

  /** The number of elements whose id is `id`. */
  function CountWithId(els: seq<Element>, id: string): nat {
    if els == [] then 0
    else CountWithId(els[..|els| - 1], id) + (if HasAttrValue(els[|els| - 1], "id", id) then 1 else 0)
  }

  lemma {:induction false} CountWithIdZero(els: seq<Element>, id: string)
    ensures CountWithId(els, id) == 0 <==> forall j :: 0 <= j < |els| ==> !HasAttrValue(els[j], "id", id)
  {
    if els != [] {
      var init := els[..|els| - 1];
      CountWithIdZero(init, id);
      assert forall j :: 0 <= j < |init| ==> init[j] == els[j];
    }
  }

  /** Opening the panel when it is open changes nothing, and otherwise
      leaves exactly one element with the panel's id, at the end. */
  lemma WithPanelSpec(els: seq<Element>, root: Option<nat>)
    ensures ById(els, PanelId).Some? ==> WithPanel(els, root) == els
    ensures ById(els, PanelId).None? ==>
              && WithPanel(els, root) == els + [PanelHost(root)]
              && CountWithId(WithPanel(els, root), PanelId) == 1
              && ById(WithPanel(els, root), PanelId) == Some(|els|)
  {
    ByIdSpec(els, PanelId);
    if ById(els, PanelId).None? {
      var w := els + [PanelHost(root)];
      assert w[..|w| - 1] == els;
      CountWithIdZero(els, PanelId);
      ByIdSpec(w, PanelId);
      assert forall j :: 0 <= j < |els| ==> w[j] == els[j];
      assert HasAttrValue(w[|els|], "id", PanelId);
    }
  }

  /** Opening twice is opening once: at most one panel is ever created. */
  lemma WithPanelIdempotent(els: seq<Element>, root: Option<nat>, root2: Option<nat>)
    ensures WithPanel(WithPanel(els, root), root2) == WithPanel(els, root)
    ensures CountWithId(WithPanel(els, root), PanelId) == if ById(els, PanelId).None? then 1 else CountWithId(els, PanelId)
  {
    WithPanelSpec(els, root);
    WithPanelSpec(WithPanel(els, root), root2);
  }

  /** A click on the inject button focuses the host (its shadow tree is
      open), and the host sits directly under the document element, which
      has no parent. So the focused element is in no form, and an
      auto-submitting panel submits the first form of the document. */
  lemma PanelSubmitsFirstForm(d: Document, h: nat)
    requires WellFormed(d) && d.active == Some(h) && h < |d.elements|
    requires d.elements[h].tag != FORM
    requires match d.elements[h].parent
             case Some(r) => r < |d.elements| && d.elements[r].tag != FORM && d.elements[r].parent.None?
             case None => true
    ensures SubmitTarget(d) == FirstForm(d.elements)
    ensures FirstForm(d.elements).Some? ==> SubmitTarget(d).value != h
  {
    var els := d.elements;
    FirstFormSpec(els);
    match els[h].parent
    case Some(r) =>
      if r < h {
        assert Closest(els, r, FORM).None?;
      }
      assert Closest(els, h, FORM).None?;
    case None =>
      assert Closest(els, h, FORM).None?;
  }

  /** `openPanel()` on a page. */
  method OpenPanel(page: Page, root: Option<nat>)
    requires page.Valid()
    requires root.Some? ==> root.value < |page.elements|
    modifies page
    ensures page.elements == WithPanel(old(page.elements), root)
    ensures page.log == old(page.log)
    ensures page.Valid()
  {
    if ById(page.elements, PanelId).Some? {
      return;
    }
    page.elements := page.elements + [PanelHost(root)];
    assert forall i :: 0 <= i < |old(page.elements)| ==> page.elements[i] == old(page.elements)[i];
  }

  /* ---------------------------------------------------------------- rows */

  /** The options of a row's type select; there is no option for `select`. */
  datatype TypeOption = OptText | OptEmail | OptNumber | OptDate | OptCheckbox

  function ToFieldType(o: TypeOption): (t: FieldType)
    ensures t != Select
  {
    match o
    case OptText => Text
    case OptEmail => Email
    case OptNumber => Number
    case OptDate => Date
    case OptCheckbox => Checkbox
  }

  /** One row: the values of its inputs, whether its selector, value and
      type controls are all present, and the state of its two buttons. */
  datatype Row = Row(
    labelText: string,
    value: string,
    selector: string,
    fieldType: TypeOption,
    complete: bool,
    pickDisabled: bool,
    removeDisabled: bool)

  /** `createFieldRow(defaults)`: the value input starts empty. */
  function NewRow(labelText: string, selector: string, fieldType: TypeOption): Row {
    Row(labelText, "", selector, fieldType, true, false, false)
  }

  /* ---------------------------------------------------------- buildPreset */

  /** The rule a row gives at position `index`, or None when it lacks a
      control or its selector is blank. */
  function FieldFor(row: Row, index: nat): Option<FieldRule> {
    if !row.complete then None
    else
      var sel := Trim(row.selector);
      if sel == "" then None
      else Some(FieldRule("field-" + NatToString(index + 1), sel, ToFieldType(row.fieldType), Static, Some(row.value), None))
  }

  /** The rules of the rows from `from` on, in row order. */
  function BuildFields(rows: seq<Row>, from: nat): seq<FieldRule>
    decreases |rows| - from
  {
    if from >= |rows| then []
    else (match FieldFor(rows[from], from) case Some(f) => [f] case None => []) + BuildFields(rows, from + 1)
  }

  /** Whether each row gives a rule. */
  function KeepFlags(rows: seq<Row>): (flags: seq<bool>)
    ensures |flags| == |rows|
    ensures forall i :: 0 <= i < |rows| ==> flags[i] == FieldFor(rows[i], i).Some?
  {
    seq(|rows|, i requires 0 <= i < |rows| => FieldFor(rows[i], i).Some?)
  }

  /** The positions from `from` on that are set, in increasing order. */
  function Positions(flags: seq<bool>, from: nat): seq<nat>
    decreases |flags| - from
  {
    if from >= |flags| then []
    else (if flags[from] then [from] else []) + Positions(flags, from + 1)
  }

  /** The positions of the rows that give a rule. */
  function KeptRows(rows: seq<Row>, from: nat): seq<nat> {
    Positions(KeepFlags(rows), from)
  }

  /** `buildPreset()`; `id` stands for the random UUID or timestamp. */
  function BuildPreset(rows: seq<Row>, autoSubmit: bool, id: string): (p: FormPreset)
    ensures p.name == "Floating Panel" && p.urlPattern == ".*" && p.autoSubmit == autoSubmit && p.id == id
  {
    FormPreset(id, "Floating Panel", ".*", autoSubmit, BuildFields(rows, 0))
  }

  /** Every position is a set one at or after `from`. */
  lemma {:induction false} PositionsSet(flags: seq<bool>, from: nat)
    ensures forall k :: 0 <= k < |Positions(flags, from)| ==>
              from <= Positions(flags, from)[k] < |flags| && flags[Positions(flags, from)[k]]
    decreases |flags| - from
  {
    if from < |flags| {
      PositionsSet(flags, from + 1);
      var ps, ps' := Positions(flags, from), Positions(flags, from + 1);
      if flags[from] {
        assert ps == [from] + ps';
        forall k | 0 <= k < |ps| ensures from <= ps[k] < |flags| && flags[ps[k]] {
          if k > 0 { assert ps[k] == ps'[k - 1]; }
        }
      } else {
        assert ps == ps';
      }
    }
  }

  /** The positions increase strictly. */
  lemma {:induction false} PositionsIncreasing(flags: seq<bool>, from: nat)
    ensures forall a, b :: 0 <= a < b < |Positions(flags, from)| ==>
              Positions(flags, from)[a] < Positions(flags, from)[b]
    decreases |flags| - from
  {
    if from < |flags| {
      PositionsIncreasing(flags, from + 1);
      PositionsSet(flags, from + 1);
      var ps, ps' := Positions(flags, from), Positions(flags, from + 1);
      if flags[from] {
        assert ps == [from] + ps';
        forall a, b | 0 <= a < b < |ps| ensures ps[a] < ps[b] {
          assert ps[b] == ps'[b - 1];
          if a == 0 {
            assert ps[a] == from;
            assert from + 1 <= ps'[b - 1];
          } else {
            assert ps[a] == ps'[a - 1];
            assert ps'[a - 1] < ps'[b - 1];
          }
        }
      } else {
        assert ps == ps';
      }
    }
  }

  /** Every set position at or after `from` is among the positions. */
  lemma {:induction false} PositionsComplete(flags: seq<bool>, from: nat)
    ensures forall i :: from <= i < |flags| && flags[i] ==> i in Positions(flags, from)
    decreases |flags| - from
  {
    if from < |flags| {
      PositionsComplete(flags, from + 1);
      var ps, ps' := Positions(flags, from), Positions(flags, from + 1);
      if flags[from] {
        assert ps == [from] + ps';
        forall i | from <= i < |flags| && flags[i] ensures i in ps {
          if i == from { assert ps[0] == from; }
          else { assert i in ps'; }
        }
      } else {
        assert ps == ps';
        forall i | from <= i < |flags| && flags[i] ensures i in ps {
          assert i != from;
        }
      }
    }
  }

  /** The kept positions are, in increasing order, exactly the positions
      whose rows give a rule; the others lack a control or have a blank
      selector. */
  lemma KeptRowsSpec(rows: seq<Row>)
    ensures var kept := KeptRows(rows, 0);
            && (forall k :: 0 <= k < |kept| ==> kept[k] < |rows| && FieldFor(rows[kept[k]], kept[k]).Some?)
            && (forall a, b :: 0 <= a < b < |kept| ==> kept[a] < kept[b])
            && (forall i :: 0 <= i < |rows| && i !in kept ==> !rows[i].complete || Trim(rows[i].selector) == "")
  {
    var flags, kept := KeepFlags(rows), KeptRows(rows, 0);
    PositionsSet(flags, 0);
    PositionsIncreasing(flags, 0);
    PositionsComplete(flags, 0);
    forall i | 0 <= i < |rows| && i !in kept ensures !rows[i].complete || Trim(rows[i].selector) == "" {
      assert !flags[i];
    }
  }

  /** The rules are those of the kept rows, in row order. */
  lemma {:induction false} BuildFieldsKept(rows: seq<Row>, from: nat)
    ensures var fs := BuildFields(rows, from);
            var kept := KeptRows(rows, from);
            && |fs| == |kept|
            && (forall k :: 0 <= k < |kept| ==> kept[k] < |rows| && FieldFor(rows[kept[k]], kept[k]) == Some(fs[k]))
    decreases |rows| - from
  {
    if from < |rows| {
      BuildFieldsKept(rows, from + 1);
      var fs, kept := BuildFields(rows, from), KeptRows(rows, from);
      var fs', kept' := BuildFields(rows, from + 1), KeptRows(rows, from + 1);
      if FieldFor(rows[from], from).Some? {
        assert fs == [FieldFor(rows[from], from).value] + fs';
        assert kept == [from] + kept';
        forall k | 0 <= k < |kept| ensures kept[k] < |rows| && FieldFor(rows[kept[k]], kept[k]) == Some(fs[k]) {
          if k > 0 {
            assert kept[k] == kept'[k - 1] && fs[k] == fs'[k - 1];
          }
        }
      } else {
        assert fs == fs' && kept == kept';
      }
    }
  }

  /** Each rule keeps its row's selector trimmed and non-empty, its value
      verbatim, its type, and the static strategy. */
  lemma FieldForShape(row: Row, index: nat)
    ensures FieldFor(row, index).Some? <==> row.complete && Trim(row.selector) != ""
    ensures var r := FieldFor(row, index);
            r.Some? ==>
              && r.value.id == "field-" + NatToString(index + 1)
              && r.value.selector == Trim(row.selector) && r.value.selector != ""
              && r.value.staticValue == Some(row.value) && r.value.valueStrategy == Static
              && r.value.fakerMethod.None?
              && r.value.fieldType == ToFieldType(row.fieldType) && r.value.fieldType != Select
  {
  }

  /** Rules built from different rows have different ids: the rule of
      the row at position `i` is numbered `i + 1`, so numbers skip where
      rows were dropped but never repeat. */
  lemma BuildFieldsIdsDistinct(rows: seq<Row>)
    ensures var fs := BuildFields(rows, 0);
            forall a, b :: 0 <= a < b < |fs| ==> fs[a].id != fs[b].id
  {
    var fs, kept := BuildFields(rows, 0), KeptRows(rows, 0);
    BuildFieldsKept(rows, 0);
    KeptRowsSpec(rows);
    forall a, b | 0 <= a < b < |fs| ensures fs[a].id != fs[b].id {
      var p := "field-";
      var x, y := NatToString(kept[a] + 1), NatToString(kept[b] + 1);
      assert fs[a].id == p + x && fs[b].id == p + y;
      if p + x == p + y {
        assert x == (p + x)[|p|..] && y == (p + y)[|p|..];
        NatToStringInjective(kept[a] + 1, kept[b] + 1);
      }
    }
  }

  /* ---------------------------------------------------------------- results */

  /** One rendered line of the result list: the OK/NG mark, the selector
      tried, and the reason in parentheses for a failure. */
  datatype ResultLine = ResultLine(ok: bool, selector: string, reason: Option<string>)

  /** An absent reason renders as "undefined" inside the parentheses. */
  function RenderItem(item: InjectionResult): (line: ResultLine)
    ensures line.ok == item.matched && line.selector == item.selectorTried
    ensures line.reason.Some? <==> !item.matched
    ensures !item.matched && item.reason.Some? ==> line.reason == Some("(" + item.reason.value + ")")
    ensures !item.matched && item.reason.None? ==> line.reason == Some("(undefined)")
  {
    assert "(" + "undefined" + ")" == "(undefined)";
    ResultLine(item.matched, item.selectorTried,
      if item.matched then None else Some("(" + item.reason.GetOr("undefined") + ")"))
  }

  /* ------------------------------------------------------------ the panel */

  /** The default rows: 氏名 on "name" as text, then メール on "email". */
  function DefaultRows(): seq<Row> {
    [NewRow("氏名", "name", OptText), NewRow("メール", "email", OptEmail)]
  }

  /** The panel's state. */
  class FloatingPanel {
    var rows: seq<Row>
    var addDisabled: bool
    var injectDisabled: bool
    var dimmed: bool
    var autoSubmit: bool
    var status: string
    var results: seq<ResultLine>

    /** The panel as `openPanel` builds it. */
    constructor ()
      ensures rows == DefaultRows()
      ensures !addDisabled && !injectDisabled && !dimmed && !autoSubmit
      ensures status == "" && results == []
    {
      rows := DefaultRows();
      addDisabled := false;
      injectDisabled := false;
      dimmed := false;
      autoSubmit := false;
      status := "";
      results := [];
    }

    /** The add button: a new empty row of type text. A disabled button
        fires no click, so the caller calls this only while `!addDisabled`. */
    method AddRow()
      requires !addDisabled
      modifies this`rows
      ensures rows == old(rows) + [NewRow("", "", OptText)]
    {
      rows := rows + [NewRow("", "", OptText)];
    }

    /** A row's remove button, which fires only while it is enabled. */
    method RemoveRow(i: nat)
      requires i < |rows| && !rows[i].removeDisabled
      modifies this`rows
      ensures rows == old(rows)[..i] + old(rows)[i + 1..]
    {
      rows := rows[..i] + rows[i + 1..];
    }

    /** `setPicking(b)`: every pick and remove button, and the add and
        inject buttons, disabled exactly when `b`; nothing else changes. */
    method SetPicking(b: bool)
      modifies this`rows, this`addDisabled, this`injectDisabled, this`dimmed
      ensures |rows| == |old(rows)|
      ensures forall k :: 0 <= k < |rows| ==> rows[k] == old(rows)[k].(pickDisabled := b, removeDisabled := b)
      ensures addDisabled == b && injectDisabled == b && dimmed == b
    {
      dimmed := b;
      var k := 0;
      while k < |rows|
        invariant 0 <= k <= |rows| && |rows| == |old(rows)| && dimmed == b
        invariant forall j :: 0 <= j < k ==> rows[j] == old(rows)[j].(pickDisabled := b)
        invariant forall j :: k <= j < |rows| ==> rows[j] == old(rows)[j]
      {
        rows := rows[k := rows[k].(pickDisabled := b)];
        k := k + 1;
      }
      k := 0;
      while k < |rows|
        invariant 0 <= k <= |rows| && |rows| == |old(rows)| && dimmed == b
        invariant forall j :: 0 <= j < k ==> rows[j] == old(rows)[j].(pickDisabled := b, removeDisabled := b)
        invariant forall j :: k <= j < |rows| ==> rows[j] == old(rows)[j].(pickDisabled := b)
      {
        rows := rows[k := rows[k].(removeDisabled := b)];
        k := k + 1;
      }
      addDisabled := b;
      injectDisabled := b;
    }

    /** The end of a row's pick: the selector is overwritten only by a
        non-empty selector, and the label is filled only when it is empty
        and the pick brought a non-empty label. */
    method ApplyPick(i: nat, result: PickResult)
      requires i < |rows|
      modifies this`rows, this`status
      ensures |rows| == |old(rows)|
      ensures forall j :: 0 <= j < |rows| && j != i ==> rows[j] == old(rows)[j]
      ensures result.selector == "" ==> rows[i] == old(rows)[i] && status == "選択を中止しました"
      ensures result.selector != "" ==>
                && rows[i].selector == result.selector
                && rows[i].labelText == (if old(rows)[i].labelText == "" && result.caption.Some? && result.caption.value != ""
                                     then result.caption.value else old(rows)[i].labelText)
                && rows[i] == old(rows)[i].(selector := rows[i].selector, labelText := rows[i].labelText)
                && status == "要素を取得しました"
    {
      if result.selector != "" {
        rows := rows[i := rows[i].(selector := result.selector)];
        if rows[i].labelText == "" && result.caption.Some? && result.caption.value != "" {
          rows := rows[i := rows[i].(labelText := result.caption.value)];
        }
        status := "要素を取得しました";
      } else {
        status := "選択を中止しました";
      }
    }

    /** A row's pick button: the panel is disabled during the pick, which
        resolves with `result`, and enabled again before it is applied. */
    method Pick(i: nat, result: PickResult)
      requires i < |rows| && !rows[i].pickDisabled
      modifies this`rows, this`addDisabled, this`injectDisabled, this`dimmed, this`status
      ensures |rows| == |old(rows)|
      ensures !addDisabled && !injectDisabled && !dimmed
      ensures forall j :: 0 <= j < |rows| ==> !rows[j].pickDisabled && !rows[j].removeDisabled
      ensures forall j :: 0 <= j < |rows| && j != i ==> rows[j] == old(rows)[j].(pickDisabled := false, removeDisabled := false)
      ensures result.selector != "" ==>
                && rows[i] == old(rows)[i].(pickDisabled := false, removeDisabled := false, selector := result.selector,
                                            labelText := if old(rows)[i].labelText == "" && result.caption.Some? && result.caption.value != ""
                                                         then result.caption.value else old(rows)[i].labelText)
                && status == "要素を取得しました"
      ensures result.selector == "" ==>
                rows[i] == old(rows)[i].(pickDisabled := false, removeDisabled := false) && status == "選択を中止しました"
    {
      status := "画面上で対象の入力欄をクリックしてください（Escで中止）";
      SetPicking(true);
      SetPicking(false);
      ApplyPick(i, result);
    }

    /** `setResults(items)`: one line per result, in order. */
    method SetResults(items: seq<InjectionResult>)
      modifies this`results
      ensures |results| == |items|
      ensures forall k :: 0 <= k < |items| ==> results[k] == RenderItem(items[k])
    {
      results := [];
      var k := 0;
      while k < |items|
        invariant 0 <= k <= |items| && |results| == k
        invariant forall j :: 0 <= j < k ==> results[j] == RenderItem(items[j])
      {
        results := results + [RenderItem(items[k])];
        k := k + 1;
      }
    }

    /** The inject button: build the preset from the rows, inject it into
        the page with the default options, and list one line per rule of
        the preset. The page ends as the injection run says. */
    method Inject(page: Page, cat: Catalog, presetId: string) returns (preset: FormPreset)
      requires page.Valid()
      modifies this`results, this`status, page`elements, page`log
      ensures preset == BuildPreset(rows, autoSubmit, presetId)
      ensures page.Valid()
      ensures var s := InjectRun(old(page.Doc()), cat, preset, DefaultOptions);
              page.elements == s.elements && page.log == old(page.log) + s.effects
      ensures |results| == |preset.fields|
      ensures forall k :: 0 <= k < |results| ==>
                && results[k].selector == preset.fields[k].selector
                && (results[k].reason.Some? <==> !results[k].ok)
                && results[k] == RenderItem(InjectRun(old(page.Doc()), cat, preset, DefaultOptions).results[k])
      ensures status == "注入が完了しました"
    {
      status := "";
      results := [];
      preset := BuildPreset(rows, autoSubmit, presetId);
      ghost var d := page.Doc();
      InjectRunResults(d, cat, preset, DefaultOptions);
      var response := page.InjectPreset(cat, preset, None, None);
      SetResults(response);
      status := "注入が完了しました";
    }
  }

  /** The default rows give two static text and email rules on "name" and
      "email", numbered 1 and 2, with empty values. */
  lemma DefaultPreset(autoSubmit: bool, id: string)
    ensures BuildPreset(DefaultRows(), autoSubmit, id).fields == [
              FieldRule("field-1", "name", Text, Static, Some(""), None),
              FieldRule("field-2", "email", Email, Static, Some(""), None)]
  {
    var rows := DefaultRows();
    TrimWord("name");
    TrimWord("email");
    assert NatToString(1) == "1" && NatToString(2) == "2";
    assert "field-" + "1" == "field-1" && "field-" + "2" == "field-2";
    var f1 := FieldRule("field-1", "name", Text, Static, Some(""), None);
    var f2 := FieldRule("field-2", "email", Email, Static, Some(""), None);
    assert FieldFor(rows[0], 0) == Some(f1);
    assert FieldFor(rows[1], 1) == Some(f2);
    assert BuildFields(rows, 2) == [];
    assert BuildFields(rows, 1) == [f2];
  }

  /** A string that neither starts nor ends with whitespace is its own trim. */
  lemma TrimWord(s: string)
    requires s != [] && !IsSpace(s[0]) && !IsSpace(s[|s| - 1])
    ensures Trim(s) == s
  {
  }
}
