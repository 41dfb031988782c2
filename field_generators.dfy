/** The name-to-generator lookup of `src/lib/fieldGenerators.ts`: a form
    field's name is normalised and matched against an ordered table of
    semantic names, first exactly and then by substring, to pick the dotted
    path of the fake-data generator that fills it.

    The generator itself is a parameter `gen(draw, request)`: `draw` numbers
    the calls so that two calls may give different values. */
module FieldGenerators {
  import opened Wrappers
  import opened Strings
  import opened Types

  /** One row of the table: a semantic field name and a generator path. */
  datatype Entry = Entry(key: string, path: string)

  /** `FIELD_METHOD_MAPPING`, in declaration order. */
  const FieldMethodMapping: seq<Entry> := [
    Entry("firstName", "person.firstName"),
    Entry("lastName", "person.lastName"),
    Entry("fullName", "person.fullName"),
    Entry("username", "internet.username"),
    Entry("password", "internet.password"),
    Entry("email", "internet.email"),
    Entry("phone", "phone.number"),
    Entry("mobile", "phone.number"),
    Entry("address", "location.streetAddress"),
    Entry("city", "location.city"),
    Entry("state", "location.state"),
    Entry("zipCode", "location.zipCode"),
    Entry("postalCode", "location.zipCode"),
    Entry("country", "location.country"),
    Entry("company", "company.name"),
    Entry("companyName", "company.name"),
    Entry("jobTitle", "person.jobTitle"),
    Entry("department", "company.department"),
    Entry("birthDate", "date.past"),
    Entry("startDate", "date.recent"),
    Entry("endDate", "date.future"),
    Entry("website", "internet.url"),
    Entry("url", "internet.url"),
    Entry("domain", "internet.domainName"),
    Entry("ip", "internet.ip"),
    Entry("uuid", "string.uuid"),
    Entry("id", "string.nanoid"),
    Entry("creditCard", "finance.creditCardNumber"),
    Entry("iban", "finance.iban"),
    Entry("bic", "finance.bic"),
    Entry("productName", "commerce.productName"),
    Entry("price", "commerce.price"),
    Entry("ean", "commerce.ean8"),
    Entry("title", "lorem.sentence"),
    Entry("description", "lorem.paragraph"),
    Entry("comment", "lorem.paragraph"),
    Entry("notes", "lorem.lines")
  ]

  /* ---------------------------------------------------------- normalisation */

  predicate IsNameChar(c: char) { 'a' <= c <= 'z' || '0' <= c <= '9' }

  /** `replace(/[^a-z0-9]/g, "")`. */
  function KeepNameChars(s: string): (r: string)
    ensures |r| <= |s|
  {
    if s == [] then []
    else (if IsNameChar(s[0]) then [s[0]] else []) + KeepNameChars(s[1..])
  }

  /** The name lower-cased, then stripped of everything but `a`-`z` and `0`-`9`. */
  function NormalizeName(s: string): (r: string)
    ensures |r| <= |s|
  {
    KeepNameChars(Lower(s))
  }

  /** What the filter keeps: only name characters, and every one of them. */
  lemma {:induction false} KeepNameCharsSpec(s: string)
    ensures forall k :: 0 <= k < |KeepNameChars(s)| ==> IsNameChar(KeepNameChars(s)[k])
    ensures (forall k :: 0 <= k < |s| ==> IsNameChar(s[k])) ==> KeepNameChars(s) == s
  {
    if s != [] {
      KeepNameCharsSpec(s[1..]);
      var rest := KeepNameChars(s[1..]);
      if IsNameChar(s[0]) {
        assert KeepNameChars(s) == [s[0]] + rest;
        assert forall k :: 1 <= k < |KeepNameChars(s)| ==> KeepNameChars(s)[k] == rest[k - 1];
      } else {
        assert KeepNameChars(s) == rest;
      }
      if forall k :: 0 <= k < |s| ==> IsNameChar(s[k]) {
        assert forall k :: 0 <= k < |s[1..]| ==> s[1..][k] == s[k + 1];
      }
    }
  }

  /** The filter of a concatenation is the concatenation of the filters. */
  lemma {:induction false} KeepNameCharsAppend(s: string, t: string)
    ensures KeepNameChars(s + t) == KeepNameChars(s) + KeepNameChars(t)
    decreases |s|
  {
    if s == [] {
      assert s + t == t;
    } else {
      var head := if IsNameChar(s[0]) then [s[0]] else [];
      assert (s + t)[0] == s[0];
      assert (s + t)[1..] == s[1..] + t;
      KeepNameCharsAppend(s[1..], t);
      assert KeepNameChars(s + t) == head + KeepNameChars(s[1..] + t);
    }
  }

  /** The filter works character by character: a name character is kept and
      any other character is dropped. With `KeepNameCharsAppend` this
      determines the filter on every string. */
  lemma KeepNameCharsChar(c: char)
    ensures KeepNameChars([c]) == if IsNameChar(c) then [c] else []
  {
    assert [c][1..] == [];
  }

  /** A normalised name is made of name characters only, and normalising it
      again changes nothing. */
  lemma NormalizeNameSpec(s: string)
    ensures forall k :: 0 <= k < |NormalizeName(s)| ==> IsNameChar(NormalizeName(s)[k])
    ensures NormalizeName(NormalizeName(s)) == NormalizeName(s)
  {
    var n := NormalizeName(s);
    KeepNameCharsSpec(Lower(s));
    assert Lower(n) == n by {
      forall k | 0 <= k < |n| ensures Lower(n)[k] == n[k] {
        assert IsNameChar(n[k]);
      }
    }
    KeepNameCharsSpec(n);
  }

  /** A name made of name characters only is its own normal form. */
  lemma NormalizeNameFixed(s: string)
    requires forall k :: 0 <= k < |s| ==> IsNameChar(s[k])
    ensures NormalizeName(s) == s
  {
    assert Lower(s) == s by {
      forall k | 0 <= k < |s| ensures Lower(s)[k] == s[k] {
        assert IsNameChar(s[k]);
      }
    }
    KeepNameCharsSpec(s);
  }

  /* ----------------------------------------------------------------- scans */

  /** The first row of `t` whose key is `n`. */
  function KeyLookup(t: seq<Entry>, n: string): (r: Option<nat>)
    ensures r.Some? ==> r.value < |t|
  {
    if t == [] then None
    else if t[0].key == n then Some(0)
    else
      match KeyLookup(t[1..], n)
      case Some(k) => Some(k + 1)
      case None => None
  }

  /** The substring test of the partial stage, in both directions. */
  predicate PartialMatch(n: string, key: string) {
    Contains(n, key) || Contains(key, n)
  }

  /** The first row of `t`, in order, that partially matches `n`. */
  function PartialLookup(t: seq<Entry>, n: string): (r: Option<nat>)
    ensures r.Some? ==> r.value < |t|
  {
    if t == [] then None
    else if PartialMatch(n, t[0].key) then Some(0)
    else
      match PartialLookup(t[1..], n)
      case Some(k) => Some(k + 1)
      case None => None
  }

  lemma {:induction false} KeyLookupSpec(t: seq<Entry>, n: string)
    ensures var r := KeyLookup(t, n);
            r.Some? ==> t[r.value].key == n && forall j :: 0 <= j < r.value ==> t[j].key != n
    ensures KeyLookup(t, n).None? ==> forall j :: 0 <= j < |t| ==> t[j].key != n
  {
    if t != [] && t[0].key != n {
      KeyLookupSpec(t[1..], n);
      assert forall j :: 1 <= j < |t| ==> t[j] == t[1..][j - 1];
    }
  }

  lemma {:induction false} PartialLookupSpec(t: seq<Entry>, n: string)
    ensures var r := PartialLookup(t, n);
            r.Some? ==> PartialMatch(n, t[r.value].key) && forall j :: 0 <= j < r.value ==> !PartialMatch(n, t[j].key)
    ensures PartialLookup(t, n).None? ==> forall j :: 0 <= j < |t| ==> !PartialMatch(n, t[j].key)
  {
    if t != [] && !PartialMatch(n, t[0].key) {
      PartialLookupSpec(t[1..], n);
      assert forall j :: 1 <= j < |t| ==> t[j] == t[1..][j - 1];
    }
  }

  lemma {:induction false} ContainsEmpty(s: string)
    ensures Contains(s, "")
  {
    assert "" <= s;
  }

  /** A string that contains `sub` contains each of its characters. */
  lemma {:induction false} ContainsChar(s: string, sub: string, c: char)
    requires Contains(s, sub) && c in sub
    ensures c in s
    decreases |s|
  {
    if sub <= s {
      var k :| 0 <= k < |sub| && sub[k] == c;
      assert s[k] == c;
    } else {
      ContainsChar(s[1..], sub, c);
    }
  }

  /* -------------------------------------------------- the lookup as written */

  /** The members every object inherits from `Object.prototype`, which the
      `in` test also sees. A normal form holds only `a`-`z` and `0`-`9`, so
      of these only "constructor" can be one; every other member has an
      upper-case letter or `_`. */
  const ObjectPrototypeMembers: set<string> := {
    "constructor", "hasOwnProperty", "isPrototypeOf", "propertyIsEnumerable",
    "toString", "toLocaleString", "valueOf", "__proto__",
    "__defineGetter__", "__defineSetter__", "__lookupGetter__", "__lookupSetter__"
  }

  /** Where a lookup in a table ends: at no row, at a row, or at an
      inherited member of `Object.prototype`. */
  datatype Hit = Miss | Row(index: nat) | Inherited(member: string)

  /** The lookup as written, for a normalised name `n` and a table `t`:
      the raw keys with `in`, which also sees inherited members, then the
      substring stage in table order. */
  function LookupAsWritten(t: seq<Entry>, n: string): (r: Hit)
    ensures r.Row? ==> r.index < |t|
  {
    match KeyLookup(t, n)
    case Some(k) => Row(k)
    case None =>
      if n in ObjectPrototypeMembers then Inherited(n)
      else
        match PartialLookup(t, n)
        case Some(k) => Row(k)
        case None => Miss
  }

  /** What `getFakerMethodForField` as written returns: nothing, a path, or
      an inherited member of `Object.prototype` (a function, not a path). */
  datatype Lookup = Undefined | Path(path: string) | InheritedMember(member: string)

  function GetFakerMethodAsWritten(fieldName: string): Lookup {
    match LookupAsWritten(FieldMethodMapping, NormalizeName(fieldName))
    case Row(k) => Path(FieldMethodMapping[k].path)
    case Inherited(m) => InheritedMember(m)
    case Miss => Undefined
  }

  /** As written, a key is matched directly only when it is already in
      normal form: a key with an upper-case letter never is, so a field
      named after it is left to the substring stage. */
  lemma CamelKeyNeverDirect(t: seq<Entry>, fieldName: string, k: nat, i: nat)
    requires k < |t| && i < |t[k].key| && IsUpper(t[k].key[i])
    ensures KeyLookup(t, NormalizeName(fieldName)) != Some(k)
  {
    var n := NormalizeName(fieldName);
    NormalizeNameSpec(fieldName);
    KeyLookupSpec(t, n);
    if i < |n| {
      assert IsNameChar(n[i]);
    }
  }

  /** The direct stage, as written, runs first: a name equal to a key gets
      the first row with that key, whatever the substring stage would say. */
  lemma AsWrittenDirectFirst(t: seq<Entry>, n: string, k: nat)
    requires k < |t| && t[k].key == n
    requires forall j :: 0 <= j < k ==> t[j].key != n
    ensures LookupAsWritten(t, n) == Row(k)
  {
    KeyLookupSpec(t, n);
  }

  /** As written, a name that no key equals and that is not inherited gets
      the first row, in table order, whose raw key is a substring of the
      name or contains it, and nothing when none does. */
  lemma AsWrittenPartial(t: seq<Entry>, n: string)
    requires forall j :: 0 <= j < |t| ==> t[j].key != n
    requires n !in ObjectPrototypeMembers
    ensures var r := LookupAsWritten(t, n);
            && !r.Inherited?
            && (r.Row? ==> PartialMatch(n, t[r.index].key)
                           && forall j :: 0 <= j < r.index ==> !PartialMatch(n, t[j].key))
            && (r.Miss? <==> forall j :: 0 <= j < |t| ==> !PartialMatch(n, t[j].key))
  {
    KeyLookupSpec(t, n);
    PartialLookupSpec(t, n);
  }

  /** A name that normalises to "" gets the first row when the table has
      one, since every key contains the empty string. */
  lemma AsWrittenEmptyName(t: seq<Entry>)
    requires t != [] && forall j :: 0 <= j < |t| ==> t[j].key != ""
    ensures LookupAsWritten(t, "") == Row(0)
  {
    ContainsEmpty(t[0].key);
    KeyLookupSpec(t, "");
    assert "" !in ObjectPrototypeMembers;
  }

  /** "firstName" normalises to "firstname". */
  lemma FirstNameNormal()
    ensures NormalizeName("firstName") == "firstname"
  {
    assert Lower("firstName") == "firstname" by {
      forall k | 0 <= k < 9 ensures Lower("firstName")[k] == "firstname"[k] { }
    }
    var s := "firstname";
    assert forall k :: 0 <= k < |s| ==> IsNameChar(s[k]);
    KeepNameCharsSpec(s);
  }

  /** No key of the table is "constructor". */
  lemma NoConstructorKey()
    ensures forall j :: 0 <= j < |FieldMethodMapping| ==> FieldMethodMapping[j].key != "constructor"
  {
  }

  /** Every key of the table starts with a lower-case letter. */
  lemma KeysStartLower()
    ensures forall j :: 0 <= j < |FieldMethodMapping| ==>
              FieldMethodMapping[j].key != "" && 'a' <= FieldMethodMapping[j].key[0] <= 'z'
  {
  }

  /** No key of the table is empty, even after normalising. */
  lemma KeysNonEmpty()
    ensures forall j :: 0 <= j < |FieldMethodMapping| ==> FieldMethodMapping[j].key != ""
    ensures forall j :: 0 <= j < |FieldMethodMapping| ==> NormalizeName(FieldMethodMapping[j].key) != ""
  {
    KeysStartLower();
    forall j | 0 <= j < |FieldMethodMapping| ensures NormalizeName(FieldMethodMapping[j].key) != "" {
      NormalizeNameNonEmpty(FieldMethodMapping[j].key);
    }
  }

  /** As written, the first row answers a name only if its key equals the
      name or is a substring of it or contains it. */
  lemma AsWrittenFirstRow(t: seq<Entry>, n: string)
    requires t != [] && t[0].key != n && !PartialMatch(n, t[0].key)
    ensures LookupAsWritten(t, n) != Row(0)
  {
    KeyLookupSpec(t, n);
    PartialLookupSpec(t, n);
  }

  /** As written, a field named "firstName" (or "first_name", or any name
      with that normal form) is not answered from the first row, whose key
      is "firstName". */
  lemma AsWrittenMissesFirstName(fieldName: string)
    requires NormalizeName(fieldName) == "firstname"
    ensures LookupAsWritten(FieldMethodMapping, NormalizeName(fieldName)) != Row(0)
  {
    var key := FieldMethodMapping[0].key;
    assert key == "firstName";
    var n := "firstname";
    assert key[5] == 'N' && n[5] == 'n';
    assert 'N' in key && 'N' !in n;
    assert 'n' in n && 'n' !in key;
    if Contains(n, key) { ContainsChar(n, key, 'N'); }
    if Contains(key, n) { ContainsChar(key, n, 'n'); }
    AsWrittenFirstRow(FieldMethodMapping, n);
  }

  /** As written, a field named "constructor" gets the inherited
      `Object.prototype.constructor` function instead of a path. */
  lemma AsWrittenConstructor(fieldName: string)
    requires NormalizeName(fieldName) == "constructor"
    ensures GetFakerMethodAsWritten(fieldName) == InheritedMember("constructor")
  {
    NoConstructorKey();
    KeyLookupSpec(FieldMethodMapping, "constructor");
    assert "constructor" in ObjectPrototypeMembers;
  }

  /* ---------------------------------------------------- the corrected lookup */

  /** The table with its keys in normal form. */
  function NormalizeKeys(t: seq<Entry>): (r: seq<Entry>)
    ensures |r| == |t|
    ensures forall k :: 0 <= k < |t| ==> r[k] == Entry(NormalizeName(t[k].key), t[k].path)
  {
    seq(|t|, k requires 0 <= k < |t| => Entry(NormalizeName(t[k].key), t[k].path))
  }

  /** The lookup with the name and the keys both normalised, consulting
      only the table's own rows: the row it answers from, if any. */
  function LookupRow(t: seq<Entry>, n: string): (r: Option<nat>)
    ensures r.Some? ==> r.value < |t|
  {
    var nt := NormalizeKeys(t);
    match KeyLookup(nt, n)
    case Some(k) => Some(k)
    case None => PartialLookup(nt, n)
  }

  /** `getFakerMethodForField` with keys normalised and own rows only. */
  function GetFakerMethodForField(fieldName: string): Option<string> {
    match LookupRow(FieldMethodMapping, NormalizeName(fieldName))
    case Some(k) => Some(FieldMethodMapping[k].path)
    case None => None
  }

  /** The corrected lookup only ever answers with a path of the table,
      while the one as written can answer with an inherited member. */
  lemma LookupInTable(fieldName: string)
    ensures var r := GetFakerMethodForField(fieldName);
            r.Some? ==> exists k :: 0 <= k < |FieldMethodMapping| && r.value == FieldMethodMapping[k].path
  {
    var r := LookupRow(FieldMethodMapping, NormalizeName(fieldName));
    if r.Some? {
      assert GetFakerMethodForField(fieldName).value == FieldMethodMapping[r.value].path;
    }
  }

  /** The direct stage comes first: a name whose normal form is the
      normalised key of row `k`, and of no earlier row, gets row `k`. */
  lemma LookupDirectFirst(t: seq<Entry>, n: string, k: nat)
    requires k < |t| && NormalizeName(t[k].key) == n
    requires forall j :: 0 <= j < k ==> NormalizeName(t[j].key) != n
    ensures LookupRow(t, n) == Some(k)
  {
    var nt := NormalizeKeys(t);
    KeyLookupSpec(nt, n);
    assert nt[k].key == n;
  }

  /** Every key is found by the direct stage: the name of row `k` gets the
      first row whose key has the same normal form, `k` itself or earlier. */
  lemma LookupFindsKey(t: seq<Entry>, k: nat)
    requires k < |t|
    ensures var r := LookupRow(t, NormalizeName(t[k].key));
            r.Some? && r.value <= k && NormalizeName(t[r.value].key) == NormalizeName(t[k].key)
  {
    var nt := NormalizeKeys(t);
    var n := NormalizeName(t[k].key);
    KeyLookupSpec(nt, n);
    assert nt[k].key == n;
  }

  /** With no key equal to it after normalising, a name gets the first row
      whose normalised key is a substring of it or contains it, and no row
      when none is. */
  lemma LookupPartial(t: seq<Entry>, n: string)
    requires forall j :: 0 <= j < |t| ==> NormalizeName(t[j].key) != n
    ensures var r := LookupRow(t, n);
            && (r.Some? ==> PartialMatch(n, NormalizeName(t[r.value].key))
                            && forall j :: 0 <= j < r.value ==> !PartialMatch(n, NormalizeName(t[j].key)))
            && (r.None? <==> forall j :: 0 <= j < |t| ==> !PartialMatch(n, NormalizeName(t[j].key)))
  {
    var nt := NormalizeKeys(t);
    KeyLookupSpec(nt, n);
    PartialLookupSpec(nt, n);
    assert forall j :: 0 <= j < |t| ==> nt[j].key == NormalizeName(t[j].key);
  }

  /** A name starting with a letter or digit has a non-empty normal form. */
  lemma NormalizeNameNonEmpty(s: string)
    requires s != [] && IsNameChar(LowerChar(s[0]))
    ensures NormalizeName(s) != ""
  {
    assert Lower(s)[0] == LowerChar(s[0]);
  }

  /** A name that normalises to "" gets the first row when the table has
      one and no key normalises to "". */
  lemma LookupEmptyName(t: seq<Entry>)
    requires t != [] && forall j :: 0 <= j < |t| ==> NormalizeName(t[j].key) != ""
    ensures LookupRow(t, "") == Some(0)
  {
    var nt := NormalizeKeys(t);
    ContainsEmpty(nt[0].key);
    KeyLookupSpec(nt, "");
    PartialLookupSpec(nt, "");
  }

  /** Corrected, a field named "firstName" gets "person.firstName". */
  lemma LookupFirstName(fieldName: string)
    requires NormalizeName(fieldName) == "firstname"
    ensures GetFakerMethodForField(fieldName) == Some("person.firstName")
  {
    var t := FieldMethodMapping;
    FirstNameNormal();
    LookupDirectFirst(t, "firstname", 0);
    assert t[0] == Entry("firstName", "person.firstName");
  }

  /** A name that normalises to "" gets "person.firstName", corrected and
      as written alike. */
  lemma EmptyNameFirstEntry(fieldName: string)
    requires NormalizeName(fieldName) == ""
    ensures GetFakerMethodForField(fieldName) == Some("person.firstName")
    ensures GetFakerMethodAsWritten(fieldName) == Path("person.firstName")
  {
    var t := FieldMethodMapping;
    KeysNonEmpty();
    LookupEmptyName(t);
    AsWrittenEmptyName(t);
    assert t[0] == Entry("firstName", "person.firstName");
  }

  /* ------------------------------------------------------------ generation */

  /** What the generator is asked for: a value for a field type, guided by
      an optional path, or the value of one path. */
  datatype Request = ByFieldType(fieldType: FieldType, guide: Option<string>) | ByMethod(path: string)

  /** What `generateByMethod` and `generateByFieldType` return: a string or
      a number. */
  datatype Generated = GenText(text: string) | GenNumber(number: int)

  /** `generateByFieldType(type, m)` when `m` is an inherited member of
      `Object.prototype`: `m` is a function, so it is truthy and handed to
      `generateByMethod`, whose `methodPath.split(".")` throws inside its own
      `try`. The catch gives "", and for the number type `parseFloat("")` is
      NaN, which becomes 0. */
  function FailedGuideValue(fieldType: FieldType): (r: Generated)
    ensures fieldType == Number ==> r == GenNumber(0)
    ensures fieldType != Number ==> r == GenText("")
  {
    if fieldType == Number then GenNumber(0) else GenText("")
  }

  /** `generateFieldValue`, with the lookup as written: the generator is
      asked for the field's type, with the path the lookup finds, or with no
      path; an inherited member gives the failure value. */
  function GenerateFieldValue(gen: (nat, Request) -> Generated, draw: nat, fieldName: string, fieldType: FieldType): Generated {
    match GetFakerMethodAsWritten(fieldName)
    case Undefined => gen(draw, ByFieldType(fieldType, None))
    case Path(p) => gen(draw, ByFieldType(fieldType, Some(p)))
    case InheritedMember(_) => FailedGuideValue(fieldType)
  }

  /** `generateFieldValue` with the corrected lookup. */
  function GenerateFieldValueCorrected(gen: (nat, Request) -> Generated, draw: nat, fieldName: string, fieldType: FieldType): Generated {
    gen(draw, ByFieldType(fieldType, GetFakerMethodForField(fieldName)))
  }

  /** A string includes itself. */
  lemma ContainsSelf(s: string)
    ensures Contains(s, s)
  {
    assert s <= s;
  }

  /** As written, a name that no raw key is a substring of, nor contains,
      and that is not an inherited member, sends no path: the generator is
      left to the field type alone. */
  lemma GenerateFieldValueNoMatch(gen: (nat, Request) -> Generated, draw: nat, fieldName: string, fieldType: FieldType)
    requires forall j :: 0 <= j < |FieldMethodMapping| ==> !PartialMatch(NormalizeName(fieldName), FieldMethodMapping[j].key)
    requires NormalizeName(fieldName) !in ObjectPrototypeMembers
    ensures GenerateFieldValue(gen, draw, fieldName, fieldType) == gen(draw, ByFieldType(fieldType, None))
  {
    var t := FieldMethodMapping;
    var n := NormalizeName(fieldName);
    forall j | 0 <= j < |t| ensures t[j].key != n {
      if t[j].key == n {
        ContainsSelf(n);
      }
    }
    AsWrittenPartial(t, n);
  }

  /** As written, a field named "constructor" (or anything with that normal
      form) gets "", or 0 for the number type, and the generator is never
      asked. */
  lemma GenerateFieldValueConstructor(gen: (nat, Request) -> Generated, draw: nat, fieldName: string, fieldType: FieldType)
    requires NormalizeName(fieldName) == "constructor"
    ensures GenerateFieldValue(gen, draw, fieldName, fieldType) == if fieldType == Number then GenNumber(0) else GenText("")
  {
    AsWrittenConstructor(fieldName);
  }

  /** Corrected, a name that no normalised key is a substring of, nor
      contains, sends no path: the generator is left to the field type
      alone. */
  lemma GenerateFieldValueCorrectedNoMatch(gen: (nat, Request) -> Generated, draw: nat, fieldName: string, fieldType: FieldType)
    requires forall j :: 0 <= j < |FieldMethodMapping| ==> !PartialMatch(NormalizeName(fieldName), NormalizeName(FieldMethodMapping[j].key))
    ensures GenerateFieldValueCorrected(gen, draw, fieldName, fieldType) == gen(draw, ByFieldType(fieldType, None))
  {
    var t := FieldMethodMapping;
    var n := NormalizeName(fieldName);
    forall j | 0 <= j < |t| ensures NormalizeName(t[j].key) != n {
      if NormalizeName(t[j].key) == n {
        ContainsSelf(n);
      }
    }
    LookupPartial(t, n);
  }

  /** One entry of the argument of `generateFormFields`. */
  datatype FieldSpec = FieldSpec(name: string, fieldType: FieldType, fakerMethod: Option<string>)

  /** Assigning a string to `result["__proto__"]` is ignored by the object. */
  const ProtoKey := "__proto__"

  /** A field names its own path when `fakerMethod` is a non-empty string. */
  predicate OwnPath(f: FieldSpec) {
    f.fakerMethod.Some? && f.fakerMethod.value != ""
  }

  /** The value for the field at position `draw`, as written: its own path
      if it names one, otherwise `generateFieldValue` on its name. */
  function FieldValue(gen: (nat, Request) -> Generated, draw: nat, f: FieldSpec): Generated {
    if OwnPath(f) then gen(draw, ByMethod(f.fakerMethod.value))
    else GenerateFieldValue(gen, draw, f.name, f.fieldType)
  }

  /** The same with the corrected lookup. */
  function FieldValueCorrected(gen: (nat, Request) -> Generated, draw: nat, f: FieldSpec): Generated {
    if OwnPath(f) then gen(draw, ByMethod(f.fakerMethod.value))
    else GenerateFieldValueCorrected(gen, draw, f.name, f.fieldType)
  }

  /** The dictionary after the fields, in order, are written into it, the
      field at position `i` bringing the value `value(i, f)`. */
  function WriteFields<V>(value: (nat, FieldSpec) -> V, fields: seq<FieldSpec>): map<string, V>
    decreases |fields|
  {
    if fields == [] then map[]
    else
      var i := |fields| - 1;
      var m := WriteFields(value, fields[..i]);
      if fields[i].name == ProtoKey then m else m[fields[i].name := value(i, fields[i])]
  }

  /** The dictionary `generateFormFields` builds, as written. */
  function FormFields(gen: (nat, Request) -> Generated, fields: seq<FieldSpec>): map<string, Generated> {
    WriteFields((i: nat, f: FieldSpec) => FieldValue(gen, i, f), fields)
  }

  /** The dictionary with the corrected lookup. */
  function FormFieldsCorrected(gen: (nat, Request) -> Generated, fields: seq<FieldSpec>): map<string, Generated> {
    WriteFields((i: nat, f: FieldSpec) => FieldValueCorrected(gen, i, f), fields)
  }

  /** `generateFormFields`. */
  method GenerateFormFields(gen: (nat, Request) -> Generated, fields: seq<FieldSpec>) returns (result: map<string, Generated>)
    ensures result == FormFields(gen, fields)
  {
    ghost var value := (i: nat, f: FieldSpec) => FieldValue(gen, i, f);
    result := map[];
    var i := 0;
    while i < |fields|
      invariant 0 <= i <= |fields|
      invariant result == WriteFields(value, fields[..i])
    {
      var f := fields[i];
      var v: Generated;
      if f.fakerMethod.Some? && f.fakerMethod.value != "" {
        v := gen(i, ByMethod(f.fakerMethod.value));
      } else {
        v := GenerateFieldValue(gen, i, f.name, f.fieldType);
      }
      assert v == value(i, f);
      if f.name != ProtoKey {
        result := result[f.name := v];
      }
      assert fields[..i + 1][..i] == fields[..i];
      i := i + 1;
    }
    assert fields[..i] == fields;
  }

  /** Writing the fields leaves one key per distinct field name, except the
      one the object refuses. */
  lemma {:induction false} WriteFieldsKeys<V>(value: (nat, FieldSpec) -> V, fields: seq<FieldSpec>)
    ensures forall n :: n in WriteFields(value, fields) <==>
              n != ProtoKey && exists i :: 0 <= i < |fields| && fields[i].name == n
    decreases |fields|
  {
    if fields != [] {
      var i := |fields| - 1;
      var init := fields[..i];
      var m, m' := WriteFields(value, fields), WriteFields(value, init);
      WriteFieldsKeys(value, init);
      forall n | n != ProtoKey && (exists j :: 0 <= j < |fields| && fields[j].name == n)
        ensures n in m
      {
        var j :| 0 <= j < |fields| && fields[j].name == n;
        if j < i {
          assert init[j].name == n;
          assert n in m';
        }
      }
      forall n | n in m
        ensures n != ProtoKey && exists j :: 0 <= j < |fields| && fields[j].name == n
      {
        if n != fields[i].name {
          assert n in m';
          var j :| 0 <= j < |init| && init[j].name == n;
          assert fields[j].name == n;
        }
      }
    }
  }

  /** The dictionary has one key per distinct field name, except the one
      the object refuses, with the lookup as written and corrected alike. */
  lemma FormFieldsKeys(gen: (nat, Request) -> Generated, fields: seq<FieldSpec>)
    ensures forall n :: n in FormFields(gen, fields) <==>
              n != ProtoKey && exists i :: 0 <= i < |fields| && fields[i].name == n
    ensures forall n :: n in FormFieldsCorrected(gen, fields) <==>
              n != ProtoKey && exists i :: 0 <= i < |fields| && fields[i].name == n
  {
    WriteFieldsKeys((i: nat, f: FieldSpec) => FieldValue(gen, i, f), fields);
    WriteFieldsKeys((i: nat, f: FieldSpec) => FieldValueCorrected(gen, i, f), fields);
  }

  /** A name's value is written by the last field with that name. */
  lemma {:induction false} WriteFieldsLastWins<V>(value: (nat, FieldSpec) -> V, fields: seq<FieldSpec>, i: nat)
    requires i < |fields| && fields[i].name != ProtoKey
    requires forall j :: i < j < |fields| ==> fields[j].name != fields[i].name
    ensures fields[i].name in WriteFields(value, fields)
    ensures WriteFields(value, fields)[fields[i].name] == value(i, fields[i])
    decreases |fields|
  {
    var last := |fields| - 1;
    if i < last {
      WriteFieldsLastWins(value, fields[..last], i);
      assert fields[..last][i] == fields[i];
    }
  }

  /** As written, the value under a name comes from the last field with
      that name, drawn at its position: a later duplicate overwrites an
      earlier one, and a field's own path takes priority over
      `generateFieldValue` on its name. */
  lemma FormFieldsLastWins(gen: (nat, Request) -> Generated, fields: seq<FieldSpec>, i: nat)
    requires i < |fields| && fields[i].name != ProtoKey
    requires forall j :: i < j < |fields| ==> fields[j].name != fields[i].name
    ensures var f := fields[i];
            var m := FormFields(gen, fields);
            f.name in m
            && m[f.name] == (if OwnPath(f) then gen(i, ByMethod(f.fakerMethod.value))
                             else GenerateFieldValue(gen, i, f.name, f.fieldType))
  {
    WriteFieldsLastWins((j: nat, f: FieldSpec) => FieldValue(gen, j, f), fields, i);
  }

  /** The same with the corrected lookup, whose path comes from the
      normalised keys. */
  lemma FormFieldsCorrectedLastWins(gen: (nat, Request) -> Generated, fields: seq<FieldSpec>, i: nat)
    requires i < |fields| && fields[i].name != ProtoKey
    requires forall j :: i < j < |fields| ==> fields[j].name != fields[i].name
    ensures var f := fields[i];
            var m := FormFieldsCorrected(gen, fields);
            f.name in m
            && m[f.name] == (if OwnPath(f) then gen(i, ByMethod(f.fakerMethod.value))
                             else gen(i, ByFieldType(f.fieldType, GetFakerMethodForField(f.name))))
  {
    WriteFieldsLastWins((j: nat, f: FieldSpec) => FieldValueCorrected(gen, j, f), fields, i);
  }
}
