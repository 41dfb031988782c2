/** The shared records of `src/lib/types.ts`. */
module Types {
  import opened Wrappers

  /** The six kinds of field a rule can fill. */
  datatype FieldType = Text | Email | Number | Date | Select | Checkbox

  /** Where a rule's value comes from: its literal, or the generator. */
  datatype ValueStrategy = Static | Faker

  /** One entry of a preset. `selector` is the hint the resolver works from;
      `fakerMethod` is a dotted generator path such as "person.fullName". */
  datatype FieldRule = FieldRule(
    id: string,
    selector: string,
    fieldType: FieldType,
    valueStrategy: ValueStrategy,
    staticValue: Option<string>,
    fakerMethod: Option<string>)

  datatype FormPreset = FormPreset(
    id: string,
    name: string,
    urlPattern: string,
    autoSubmit: bool,
    fields: seq<FieldRule>)

  /** The outcome of one rule; `reason` is present only on failure. */
  datatype InjectionResult = InjectionResult(
    fieldId: string,
    matched: bool,
    selectorTried: string,
    reason: Option<string>)
}
