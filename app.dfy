/** The popup (`src/App.tsx`): its two-field form, the preset built from it,
    the pick left in storage by the picker, the three message round trips to
    the content script, and the status line that reports their failures. */
module App {
  import opened Wrappers
  import opened Strings
  import opened Js
  import opened Types
  import opened Dom
  import opened Picker
  import opened Injector
  import opened ContentIndex

  /* ------------------------------------------------------------ formatError */

  const FailurePrefix := "失敗: "
  const ActiveTabMissing := FailurePrefix + "アクティブタブが見つかりません"
  const ScriptMissing := FailurePrefix + "コンテンツスクリプト未注入です。対象ページが http/https か確認し、必要なら拡張機能を再読み込みしてください。file:// で検証中なら「ファイル URL へのアクセスを許可」を有効にしてください。"

  const ActiveTabNeedle := "active-tab-not-found"
  const NoReceiverNeedle := "Receiving end does not exist"
  const NoConnectionNeedle := "Could not establish connection"
  const NoResponseNeedle := "no-response"

  /** The three kinds of failure the status line tells apart. */
  datatype ErrorKind = ActiveTab | NotInjected | OtherError

  /** The tests of `formatError`, in their order: the active-tab marker is
      looked for first. */
  function Classify(raw: string): ErrorKind {
    if Contains(raw, ActiveTabNeedle) then ActiveTab
    else if Contains(raw, NoReceiverNeedle) || Contains(raw, NoConnectionNeedle) || Contains(raw, NoResponseNeedle) then NotInjected
    else OtherError
  }

  /** `formatError(raw)`: every status it produces starts with the failure
      prefix; the two known failures get a fixed explanation, and any other
      text is shown whole after the prefix, so it can be read back. */
  function FormatError(raw: string): (r: string)
    ensures FailurePrefix <= r
    ensures Contains(raw, ActiveTabNeedle) ==> r == ActiveTabMissing
    ensures Classify(raw) == NotInjected ==> r == ScriptMissing
    ensures Classify(raw) == OtherError ==> r[|FailurePrefix|..] == raw
  {
    match Classify(raw)
    case ActiveTab => ActiveTabMissing
    case NotInjected => ScriptMissing
    case OtherError => FailurePrefix + raw
  }

  /** `String(new Error(m))` is classified as `m` itself: the "Error" name in
      front can neither start nor hide any of the searched phrases. So the
      popup's own rejections are reported by their message. */
  lemma ErrorStringClassified(m: string)
    ensures Classify(ErrorString(m)) == Classify(m)
    ensures Classify(m) == OtherError ==> FormatError(ErrorString(m)) == FailurePrefix + ErrorString(m)
    ensures Classify(m) != OtherError ==> FormatError(ErrorString(m)) == FormatError(m)
  {
    var p := if m == "" then "Error" else "Error: ";
    assert ErrorString(m) == p + m;
    ContainsSkipPrefix(p, m, ActiveTabNeedle);
    ContainsSkipPrefix(p, m, NoReceiverNeedle);
    ContainsSkipPrefix(p, m, NoConnectionNeedle);
    ContainsSkipPrefix(p, m, NoResponseNeedle);
  }

  /** The two rejections the popup raises itself get the two explanations. */
  lemma OwnRejections()
    ensures FormatError(ErrorString(ActiveTabNeedle)) == ActiveTabMissing
    ensures FormatError(ErrorString(NoResponseNeedle)) == ScriptMissing
  {
    ErrorStringClassified(ActiveTabNeedle);
    ErrorStringClassified(NoResponseNeedle);
    assert Contains(ActiveTabNeedle, ActiveTabNeedle);
    assert Contains(NoResponseNeedle, NoResponseNeedle);
    if Contains(NoResponseNeedle, ActiveTabNeedle) {
      ContainsLength(NoResponseNeedle, ActiveTabNeedle);
    }
  }

  /* -------------------------------------------------------------- last pick */

  /** Which of the two form fields a pick was made for. */
  datatype Target = NameTarget | EmailTarget

  function TargetName(t: Target): string {
    match t
    case NameTarget => "name"
    case EmailTarget => "email"
  }

  /** The record the picker leaves under the "lastPick" storage key. */
  datatype LastPick = LastPick(target: Target, result: PickResult, timestamp: int)

  const LastPickTtlMs := 2 * 60 * 1000

  /** A stored pick is too old to apply: strictly more than two minutes have
      passed since it was stored. */
  predicate Expired(now: int, timestamp: int) {
    now - timestamp > LastPickTtlMs
  }

  /** The popup's form: two values and the two selector hints. */
  datatype Form = Form(fullName: string, email: string, nameSelector: string, emailSelector: string)

  const InitialForm := Form("", "", "name", "email")

  /** A caption that is present and non-empty. */
  predicate HasCaption(r: PickResult) {
    r.caption.Some? && r.caption.value != ""
  }

  /** What applying a pick does to the form. */
  function ApplyPick(f: Form, pick: LastPick): (g: Form)
    ensures pick.target == NameTarget ==> g.email == f.email && g.emailSelector == f.emailSelector
    ensures pick.target == EmailTarget ==> g.fullName == f.fullName && g.nameSelector == f.nameSelector
    ensures var sel := if pick.target == NameTarget then g.nameSelector else g.emailSelector;
            var old_sel := if pick.target == NameTarget then f.nameSelector else f.emailSelector;
            (pick.result.selector != "" ==> sel == pick.result.selector)
            && (pick.result.selector == "" ==> sel == old_sel)
    ensures var v := if pick.target == NameTarget then g.fullName else g.email;
            var old_v := if pick.target == NameTarget then f.fullName else f.email;
            (old_v != "" ==> v == old_v)
            && (old_v == "" && HasCaption(pick.result) ==> v == pick.result.caption.value)
            && (old_v == "" && !HasCaption(pick.result) ==> v == "")
  {
    var r := pick.result;
    match pick.target
    case NameTarget =>
      f.(nameSelector := if r.selector != "" then r.selector else f.nameSelector,
         fullName := if f.fullName == "" && HasCaption(r) then r.caption.value else f.fullName)
    case EmailTarget =>
      f.(emailSelector := if r.selector != "" then r.selector else f.emailSelector,
         email := if f.email == "" && HasCaption(r) then r.caption.value else f.email)
  }

  /** Applying the same pick twice is applying it once. */
  lemma ApplyPickIdempotent(f: Form, pick: LastPick)
    ensures ApplyPick(ApplyPick(f, pick), pick) == ApplyPick(f, pick)
  {
  }

  /* ------------------------------------------------------------ the preset */

  /** The popup's preset: two static rules, the name as text and the email
      as email, on the current hints. `id` stands for the random UUID or the
      timestamp. */
  function PopupPreset(id: string, f: Form, autoSubmit: bool): FormPreset {
    FormPreset(id, "MVP Preset", ".*", autoSubmit, [
      FieldRule("fullName", f.nameSelector, Text, Static, Some(f.fullName), None),
      FieldRule("email", f.emailSelector, Email, Static, Some(f.email), None)])
  }

  /** Injecting the popup's preset reports on exactly its two fields, the
      name first, each with the hint the form held. */
  lemma PopupPresetResults(d: Document, cat: Catalog, id: string, f: Form, autoSubmit: bool)
    requires WellFormed(d)
    ensures var rs := InjectRun(d, cat, PopupPreset(id, f, autoSubmit), DefaultOptions).results;
            && |rs| == 2
            && rs[0].fieldId == "fullName" && rs[0].selectorTried == f.nameSelector
            && rs[1].fieldId == "email" && rs[1].selectorTried == f.emailSelector
            && (rs[0].matched <==> rs[0].reason.None?)
            && (rs[1].matched <==> rs[1].reason.None?)
  {
    var p := PopupPreset(id, f, autoSubmit);
    InjectRunResults(d, cat, p, DefaultOptions);
    assert ResultFor(InjectRun(d, cat, p, DefaultOptions).results[0], p.fields[0]);
    assert ResultFor(InjectRun(d, cat, p, DefaultOptions).results[1], p.fields[1]);
  }

  function FieldTypeName(t: FieldType): string {
    match t
    case Text => "text"
    case Email => "email"
    case Number => "number"
    case Date => "date"
    case Select => "select"
    case Checkbox => "checkbox"
  }

  function StrategyName(s: ValueStrategy): string {
    match s
    case Static => "static"
    case Faker => "faker"
  }

  /** A rule as the message carries it; an absent optional field is left out. */
  function EncodeRule(r: FieldRule): JsValue {
    Object(map["id" := Str(r.id), "selector" := Str(r.selector), "type" := Str(FieldTypeName(r.fieldType)),
               "valueStrategy" := Str(StrategyName(r.valueStrategy))]
           + (if r.staticValue.Some? then map["staticValue" := Str(r.staticValue.value)] else map[])
           + (if r.fakerMethod.Some? then map["fakerMethod" := Str(r.fakerMethod.value)] else map[]))
  }

  function EncodeRules(rules: seq<FieldRule>): (r: seq<JsValue>)
    ensures |r| == |rules|
    ensures forall k :: 0 <= k < |rules| ==> r[k] == EncodeRule(rules[k])
  {
    if rules == [] then [] else [EncodeRule(rules[0])] + EncodeRules(rules[1..])
  }

  /** A preset as the message carries it. */
  function EncodePreset(p: FormPreset): (v: JsValue)
    ensures v.Object?
  {
    Object(map["id" := Str(p.id), "name" := Str(p.name), "urlPattern" := Str(p.urlPattern),
               "autoSubmit" := Bool(p.autoSubmit), "fields" := Array(EncodeRules(p.fields))])
  }

  /** The popup's injection request always passes the content script's
      guard, which hands on the encoded preset. */
  lemma PopupMessageAccepted(p: FormPreset)
    ensures IsInjectMessage(InjectMessage(EncodePreset(p)))
    ensures Get(InjectMessage(EncodePreset(p)), "preset") == EncodePreset(p)
  {
    InjectMessageAccepted(EncodePreset(p).props);
  }

  const PickType := "DEV_FORM_FILLER_PICK"
  const OpenPanelType := "DEV_FORM_FILLER_OPEN_PANEL"

  function PickMessage(t: Target): JsValue {
    Object(map["type" := Str(PickType), "target" := Str(TargetName(t))])
  }

  function OpenPanelMessage(): JsValue {
    Object(map["type" := Str(OpenPanelType)])
  }

  /** The picker and panel requests never start an injection. */
  lemma OtherMessagesIgnored(t: Target, inject: JsValue -> Settled<seq<InjectionResult>>)
    ensures Listen(PickMessage(t), inject) == Reply(Undefined, None)
    ensures Listen(OpenPanelMessage(), inject) == Reply(Undefined, None)
  {
    OtherTypeIgnored(PickMessage(t).props, inject);
    OtherTypeIgnored(OpenPanelMessage().props, inject);
  }

  /* ---------------------------------------------------- talking to the tab */

  /** `chrome.tabs.query` for the active tab: an error, or the first tab if
      any; a tab's `id` may be absent. */
  datatype Tab = Tab(id: Option<int>)
  datatype TabQuery = QueryError(message: string) | Tabs(first: Option<Tab>)

  /** `getActiveTab()` followed by the `!tab?.id` test: a missing tab, a
      missing id and the id 0 all fail as "active-tab-not-found". */
  function ActiveTabId(q: TabQuery): (r: Settled<int>)
    ensures r.Resolved? <==> q.Tabs? && q.first.Some? && q.first.value.id.Some? && q.first.value.id.value != 0
    ensures r.Resolved? ==> r.value == q.first.value.id.value
    ensures q.QueryError? ==> r == Rejected(ErrorString(q.message))
    ensures q.Tabs? && r.Rejected? ==> r == Rejected(ErrorString(ActiveTabNeedle))
  {
    match q
    case QueryError(m) => Rejected(ErrorString(m))
    case Tabs(first) =>
      if first.None? || first.value.id.None? || first.value.id.value == 0 then Rejected(ErrorString(ActiveTabNeedle))
      else Resolved(first.value.id.value)
  }

  /** What the callback of `chrome.tabs.sendMessage` sees: the runtime's last
      error, and the response (None for a missing one). */
  datatype Delivery<R> = Delivery(lastError: Option<string>, response: Option<R>)

  /** The three send helpers: the last error wins, then a missing response
      rejects as "no-response", and otherwise the response is the result. */
  function Receive<R>(dv: Delivery<R>): (r: Settled<R>)
    ensures dv.lastError.Some? ==> r == Rejected(ErrorString(dv.lastError.value))
    ensures dv.lastError.None? && dv.response.None? ==> r == Rejected(ErrorString(NoResponseNeedle))
    ensures r.Resolved? <==> dv.lastError.None? && dv.response.Some?
    ensures r.Resolved? ==> r.value == dv.response.value
  {
    if dv.lastError.Some? then Rejected(ErrorString(dv.lastError.value))
    else if dv.response.None? then Rejected(ErrorString(NoResponseNeedle))
    else Resolved(dv.response.value)
  }

  /** The picker's answer. */
  datatype PickResponse = PickOk(result: PickResult) | PickFailed(error: string)

  /** The panel's answer. */
  datatype OpenPanelResponse = PanelOk | PanelFailed(error: string)

  const DoneStatus := "注入が完了しました"
  const PickPromptStatus := "画面上で対象の入力欄をクリックしてください（Escで中止）"
  const ReopenStatus := "選択後にポップアップを開き直してください"
  const PanelShownStatus := "フローティングパネルを表示しました"
  const PickedStatus := "要素を取得しました"

  /** Status and details after an injection request: the tab, then the
      delivery, then the content script's answer. */
  function InjectStatus(q: TabQuery, message: JsValue, send: (int, JsValue) -> Delivery<InjectResponse>): (r: (string, Option<seq<InjectionResult>>))
    ensures r.1.Some? ==> r.0 == DoneStatus
    ensures r.1.None? ==> FailurePrefix <= r.0
  {
    match ActiveTabId(q)
    case Rejected(e) => (FormatError(e), None)
    case Resolved(tab) =>
      match Receive(send(tab, message))
      case Rejected(e) => (FormatError(e), None)
      case Resolved(response) =>
        match response
        case InjectOk(results) => (DoneStatus, Some(results))
        case InjectFailed(e) => (FormatError(e), None)
  }

  /** The popup and the content script together: when the tab is found and
      the messaging layer delivers the listener's answer, the popup reports
      success with the injection's results exactly when the injection
      resolves, and otherwise the error text the content script sent. */
  lemma InjectEndToEnd(tab: int, p: FormPreset, send: (int, JsValue) -> Delivery<InjectResponse>,
                       inject: JsValue -> Settled<seq<InjectionResult>>)
    requires tab != 0
    requires send(tab, InjectMessage(EncodePreset(p))) == Delivery(None, Listen(InjectMessage(EncodePreset(p)), inject).response)
    ensures var r := InjectStatus(Tabs(Some(Tab(Some(tab)))), InjectMessage(EncodePreset(p)), send);
            match inject(EncodePreset(p))
            case Resolved(results) => r == (DoneStatus, Some(results))
            case Rejected(e) => r == (FormatError(e), None)
  {
    PopupMessageAccepted(p);
  }

  /** A tab whose id is 0 is taken for a missing tab. */
  lemma TabIdZero(message: JsValue, send: (int, JsValue) -> Delivery<InjectResponse>)
    ensures InjectStatus(Tabs(Some(Tab(Some(0)))), message, send) == (ActiveTabMissing, None)
  {
    OwnRejections();
  }

  /** Status after a pick request: a delivered answer counts as success even
      when the picker answered with a failure. */
  function PickStatus(q: TabQuery, t: Target, send: (int, JsValue) -> Delivery<PickResponse>): (status: string)
    ensures status == ReopenStatus || FailurePrefix <= status
  {
    match ActiveTabId(q)
    case Rejected(e) => FormatError(e)
    case Resolved(tab) =>
      match Receive(send(tab, PickMessage(t)))
      case Rejected(e) => FormatError(e)
      case Resolved(_) => ReopenStatus
  }

  /** Status after a panel request; as for a pick, the answer's `ok` is not read. */
  function OpenPanelStatus(q: TabQuery, send: (int, JsValue) -> Delivery<OpenPanelResponse>): (status: string)
    ensures status == PanelShownStatus || FailurePrefix <= status
  {
    match ActiveTabId(q)
    case Rejected(e) => FormatError(e)
    case Resolved(tab) =>
      match Receive(send(tab, OpenPanelMessage()))
      case Rejected(e) => FormatError(e)
      case Resolved(_) => PanelShownStatus
  }

  /** The pick status names its cause: the reopen hint exactly when the tab
      was found and the request delivered, otherwise the formatted rejection
      of whichever step failed first. */
  lemma PickStatusCases(q: TabQuery, t: Target, send: (int, JsValue) -> Delivery<PickResponse>)
    ensures ActiveTabId(q).Rejected? ==> PickStatus(q, t, send) == FormatError(ActiveTabId(q).error)
    ensures ActiveTabId(q).Resolved? && Receive(send(ActiveTabId(q).value, PickMessage(t))).Rejected? ==>
              PickStatus(q, t, send) == FormatError(Receive(send(ActiveTabId(q).value, PickMessage(t))).error)
    ensures PickStatus(q, t, send) == ReopenStatus <==>
              ActiveTabId(q).Resolved? && Receive(send(ActiveTabId(q).value, PickMessage(t))).Resolved?
  {
    NotFailure(ReopenStatus);
  }

  /** The same for a panel request: the shown message exactly when the tab
      was found and the request delivered, whatever the answer's `ok`. */
  lemma OpenPanelStatusCases(q: TabQuery, send: (int, JsValue) -> Delivery<OpenPanelResponse>)
    ensures ActiveTabId(q).Rejected? ==> OpenPanelStatus(q, send) == FormatError(ActiveTabId(q).error)
    ensures ActiveTabId(q).Resolved? && Receive(send(ActiveTabId(q).value, OpenPanelMessage())).Rejected? ==>
              OpenPanelStatus(q, send) == FormatError(Receive(send(ActiveTabId(q).value, OpenPanelMessage())).error)
    ensures OpenPanelStatus(q, send) == PanelShownStatus <==>
              ActiveTabId(q).Resolved? && Receive(send(ActiveTabId(q).value, OpenPanelMessage())).Resolved?
  {
    NotFailure(PanelShownStatus);
  }

  /** A status that does not start with the failure prefix is no formatted error. */
  lemma NotFailure(s: string)
    requires |s| > 0 && s[0] != FailurePrefix[0]
    ensures forall e :: FormatError(e) != s
  {
    forall e ensures FormatError(e) != s {
      assert FormatError(e)[0] == FailurePrefix[0];
    }
  }

  /** A pick the picker refused is still reported as made. */
  lemma PickFailureUnreported(tab: int, t: Target, send: (int, JsValue) -> Delivery<PickResponse>)
    requires tab != 0
    requires send(tab, PickMessage(t)).lastError.None?
    requires send(tab, PickMessage(t)).response.Some? && send(tab, PickMessage(t)).response.value.PickFailed?
    ensures PickStatus(Tabs(Some(Tab(Some(tab)))), t, send) == ReopenStatus
  {
  }

  /* -------------------------------------------------------------- the popup */

  /** The popup's state, and the storage slot it shares with the picker. */
  class Popup {
    var form: Form
    var autoSubmit: bool
    var status: Option<string>
    var details: Option<seq<InjectionResult>>
    var isRunning: bool
    var picking: Option<Target>
    var stored: Option<LastPick>

    constructor(stored: Option<LastPick>)
      ensures form == InitialForm && !autoSubmit && status.None? && details.None?
      ensures !isRunning && picking.None? && this.stored == stored
    {
      form := InitialForm;
      autoSubmit := false;
      status := None;
      details := None;
      isRunning := false;
      picking := None;
      this.stored := stored;
    }

    /** The effect that reads the stored pick at time `now`: nothing without
        one; an expired one is only removed; a fresh one is applied to the
        form and removed, and the status says so. */
    method LoadLastPick(now: int)
      modifies this`form, this`stored, this`status
      ensures stored.None?
      ensures old(stored).None? || Expired(now, old(stored).value.timestamp) ==>
                form == old(form) && status == old(status)
      ensures old(stored).Some? && !Expired(now, old(stored).value.timestamp) ==>
                form == ApplyPick(old(form), old(stored).value) && status == Some(PickedStatus)
    {
      if stored.None? {
        return;
      }
      var pick := stored.value;
      if now - pick.timestamp > LastPickTtlMs {
        stored := None;
        return;
      }
      var r := pick.result;
      if pick.target == NameTarget {
        if r.selector != "" {
          form := form.(nameSelector := r.selector);
        }
        if form.fullName == "" && r.caption.Some? && r.caption.value != "" {
          form := form.(fullName := r.caption.value);
        }
      } else {
        if r.selector != "" {
          form := form.(emailSelector := r.selector);
        }
        if form.email == "" && r.caption.Some? && r.caption.value != "" {
          form := form.(email := r.caption.value);
        }
      }
      stored := None;
      status := Some(PickedStatus);
    }

    /** `handleInject`: sends the preset built from the form and reports the
        outcome; the form itself is untouched. */
    method HandleInject(q: TabQuery, presetId: string, send: (int, JsValue) -> Delivery<InjectResponse>)
      returns (preset: FormPreset)
      modifies this`status, this`details, this`isRunning
      ensures preset == PopupPreset(presetId, form, autoSubmit)
      ensures var r := InjectStatus(q, InjectMessage(EncodePreset(preset)), send);
              status == Some(r.0) && details == r.1
      ensures !isRunning
    {
      isRunning := true;
      status := None;
      details := None;
      preset := PopupPreset(presetId, form, autoSubmit);
      var message := InjectMessage(EncodePreset(preset));
      var tab := ActiveTabId(q);
      if tab.Rejected? {
        status := Some(FormatError(tab.error));
      } else {
        var answer := Receive(send(tab.value, message));
        if answer.Rejected? {
          status := Some(FormatError(answer.error));
        } else if answer.value.InjectOk? {
          status := Some(DoneStatus);
          details := Some(answer.value.results);
        } else {
          status := Some(FormatError(answer.value.error));
        }
      }
      isRunning := false;
    }

    /** `handlePick`: prompts, sends the pick request, reports, and is no
        longer picking. */
    method HandlePick(q: TabQuery, t: Target, send: (int, JsValue) -> Delivery<PickResponse>)
      modifies this`status, this`picking
      ensures status == Some(PickStatus(q, t, send))
      ensures picking.None?
    {
      picking := Some(t);
      status := Some(PickPromptStatus);
      status := Some(PickStatus(q, t, send));
      picking := None;
    }

    /** `handleOpenPanel`: sends the panel request and reports. */
    method HandleOpenPanel(q: TabQuery, send: (int, JsValue) -> Delivery<OpenPanelResponse>)
      modifies this`status
      ensures status == Some(OpenPanelStatus(q, send))
    {
      status := Some(OpenPanelStatus(q, send));
    }
  }

  /** Once applied, a pick is gone: loading again at any later time leaves
      the form as the first load made it. */
  method LoadTwice(p: Popup, now: int, later: int)
    modifies p
    ensures p.stored.None?
    ensures old(p.stored).Some? && !Expired(now, old(p.stored).value.timestamp) ==>
              p.form == ApplyPick(old(p.form), old(p.stored).value)
  {
    p.LoadLastPick(now);
    p.LoadLastPick(later);
  }
}
