/** The content script's entry point (`src/content/index.ts`): the guard that
    recognises an injection request among all the messages the page's
    content script receives, and the listener that answers it with the
    outcome of the injection. */
module ContentIndex {
  import opened Wrappers
  import opened Js
  import opened Types

  const InjectType := "DEV_FORM_FILLER_INJECT"

  /** `isInjectMessage(message)`: a truthy object whose `type` is exactly the
      injection tag and whose `preset` is a non-null object. Nothing inside
      the preset is checked. */
  predicate IsInjectMessage(message: JsValue)
    ensures IsInjectMessage(message) <==>
              && message.Object?
              && Get(message, "type") == Str(InjectType)
              && (Get(message, "preset").Object? || Get(message, "preset").Array?)
  {
    if Falsy(message) || !TypeofObject(message) then false
    else
      var preset := Get(message, "preset");
      Get(message, "type") == Str(InjectType) && TypeofObject(preset) && !preset.Null?
  }

  /** `{ type: "DEV_FORM_FILLER_INJECT", preset }` as the popup sends it. */
  function InjectMessage(preset: JsValue): JsValue {
    Object(map["type" := Str(InjectType), "preset" := preset])
  }

  /** Any object sent as the preset makes a message the guard accepts, and
      the guard hands that very object on. */
  lemma InjectMessageAccepted(props: map<string, JsValue>)
    ensures IsInjectMessage(InjectMessage(Object(props)))
    ensures Get(InjectMessage(Object(props)), "preset") == Object(props)
  {
  }

  /** What `sendResponse` is called with. */
  datatype InjectResponse = InjectOk(results: seq<InjectionResult>) | InjectFailed(error: string)

  /** The listener's part: what it returns to the messaging layer (`true`
      keeps the channel open for the asynchronous answer) and the response
      it eventually sends, if any. */
  datatype Reply = Reply(returned: JsValue, response: Option<InjectResponse>)

  /** The listener on `message`; `inject` is how `injectPreset` settles on the
      message's preset object (it rejects, for one, when that object has no
      `fields` array). */
  function Listen(message: JsValue, inject: JsValue -> Settled<seq<InjectionResult>>): (r: Reply)
    ensures !IsInjectMessage(message) ==> r == Reply(Undefined, None)
    ensures IsInjectMessage(message) ==> r.returned == Bool(true) && r.response.Some?
    ensures r.response.Some? ==>
              match inject(Get(message, "preset"))
              case Resolved(results) => r.response.value == InjectOk(results)
              case Rejected(error) => r.response.value == InjectFailed(error)
  {
    if !IsInjectMessage(message) then Reply(Undefined, None)
    else
      var response := match inject(Get(message, "preset"))
        case Resolved(results) => InjectOk(results)
        case Rejected(error) => InjectFailed(error);
      Reply(Bool(true), Some(response))
  }

  /** A message with any other `type` (the picker's, the panel's) is left to
      the other listeners: this one neither answers nor keeps the channel. */
  lemma OtherTypeIgnored(props: map<string, JsValue>, inject: JsValue -> Settled<seq<InjectionResult>>)
    requires "type" in props && props["type"] != Str(InjectType)
    ensures Listen(Object(props), inject) == Reply(Undefined, None)
  {
  }
}
