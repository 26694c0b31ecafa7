/**
 * The resume schema of `src/types.ts`: the item, section and resume shapes,
 * the validator that turns an untrusted JSON value into a resume or rejects
 * it (the Zod schemas' `safeParse`), the serialisation back to JSON (what
 * `JSON.stringify` is given), and the default resume.
 */
module Types {
  import opened Wrappers
  import opened Json

  /** The discriminator of a section, its `type` field. */
  datatype SectionType = Experience | Education | Skills | Custom

  /** The string literal each variant carries in its `type` field. */
  function TypeTag(t: SectionType): string {
    match t
    case Experience => "experience"
    case Education => "education"
    case Skills => "skills"
    case Custom => "custom"
  }

  /** The variant a `type` string selects, if any. */
  function TypeOfTag(tag: string): (r: Option<SectionType>)
    ensures r.Some? ==> TypeTag(r.value) == tag
    ensures forall t :: TypeTag(t) == tag ==> r == Some(t)
  {
    if tag == "experience" then Some(Experience)
    else if tag == "education" then Some(Education)
    else if tag == "skills" then Some(Skills)
    else if tag == "custom" then Some(Custom)
    else None
  }

  /**
   * One entry of a section. Each constructor is one of the four item schemas;
   * `None` stands for a key that is absent (an optional field left undefined).
   */
  datatype Item =
    | ExperienceItem(role: string, company: string, location: Option<string>, duration: string, bullets: seq<string>)
    | EducationItem(degree: string, institution: string, location: Option<string>, duration: string, gpa: Option<string>)
    | SkillsItem(category: string, items: seq<string>)
    | CustomItem(labelText: string, value: Option<string>, customBullets: Option<seq<string>>)

  /** The section variant whose item schema an item follows. */
  function KindOf(it: Item): SectionType {
    match it
    case ExperienceItem(_, _, _, _, _) => Experience
    case EducationItem(_, _, _, _, _) => Education
    case SkillsItem(_, _) => Skills
    case CustomItem(_, _, _) => Custom
  }

  datatype Section = Section(id: string, kind: SectionType, title: string, items: seq<Item>)

  datatype ResumeData = ResumeData(
    name: string,
    title: string,
    phone: string,
    email: string,
    location: string,
    nationality: Option<string>,
    extraField: Option<string>,
    summary: string,
    sections: seq<Section>)

  /** Every item of the section has the shape its `type` selects. */
  predicate SectionWellTyped(s: Section) {
    forall i :: 0 <= i < |s.items| ==> KindOf(s.items[i]) == s.kind
  }

  /** The discriminated union holds for every section. Section ids are not constrained. */
  predicate WellTyped(r: ResumeData) {
    forall i :: 0 <= i < |r.sections| ==> SectionWellTyped(r.sections[i])
  }

  /** `defaultResume`: every string empty, including the two optional ones, and no sections. */
  const DefaultResume: ResumeData := ResumeData("", "", "", "", "", Some(""), Some(""), "", [])

  // ---------------------------------------------------------------------------
  // Validation

  datatype PathSegment = Key(key: string) | Index(index: nat)

  /**
   * Where validation failed and what was expected there. Zod collects every
   * issue in schema order; this is the first of them.
   */
  datatype SchemaError = SchemaError(path: seq<PathSegment>, expected: string)

  /** Prefixes an error's path with the segment it was found under. */
  function Within<T>(seg: PathSegment, r: Result<T, SchemaError>): (r': Result<T, SchemaError>)
    ensures r'.Ok? <==> r.Ok?
    ensures r.Ok? ==> r' == r
  {
    match r
    case Ok(v) => Ok(v)
    case Err(e) => Err(SchemaError([seg] + e.path, e.expected))
  }

  /** A key's value, or `None` for a key that is absent (JavaScript's `undefined`). */
  function Lookup(o: map<string, Json>, k: string): Option<Json> {
    if k in o then Some(o[k]) else None
  }

  /** `z.object(...)` first demands a plain object. */
  function AsObject(j: Json): (r: Result<map<string, Json>, SchemaError>)
    ensures r.Ok? <==> j.JObject?
    ensures r.Ok? ==> r.value == j.fields
  {
    if j.JObject? then Ok(j.fields) else Err(SchemaError([], "object"))
  }

  /** `z.string()`: undefined, null and every non-string value are rejected. */
  function Str(v: Option<Json>): (r: Result<string, SchemaError>)
    ensures r.Ok? <==> v.Some? && v.value.JString?
    ensures r.Ok? ==> v == Some(JString(r.value))
  {
    if v.Some? && v.value.JString? then Ok(v.value.s) else Err(SchemaError([], "string"))
  }

  /** `z.string()` applied to an array element. */
  function ElemStr(j: Json): Result<string, SchemaError> {
    Str(Some(j))
  }

  /** Checks the elements of an array one by one; the first failing index is reported. */
  function ValidateArray<T>(elems: seq<Json>, f: Json -> Result<T, SchemaError>): (r: Result<seq<T>, SchemaError>)
    ensures r.Ok? <==> forall i :: 0 <= i < |elems| ==> f(elems[i]).Ok?
    ensures r.Ok? ==> |r.value| == |elems| && forall i :: 0 <= i < |elems| ==> f(elems[i]) == Ok(r.value[i])
  {
    if elems == [] then Ok([])
    else
      var n := |elems| - 1;
      var prefix :- ValidateArray(elems[..n], f);
      var last :- Within(Index(n), f(elems[n]));
      Ok(prefix + [last])
  }

  /** `z.array(f)`: an array each of whose elements passes `f`. */
  function Arr<T>(v: Option<Json>, f: Json -> Result<T, SchemaError>): (r: Result<seq<T>, SchemaError>)
    ensures r.Ok? <==> v.Some? && v.value.JArray? && forall i :: 0 <= i < |v.value.elems| ==> f(v.value.elems[i]).Ok?
    ensures r.Ok? ==> (|r.value| == |v.value.elems|
      && forall i :: 0 <= i < |v.value.elems| ==> f(v.value.elems[i]) == Ok(r.value[i]))
  {
    if v.Some? && v.value.JArray? then ValidateArray(v.value.elems, f) else Err(SchemaError([], "array"))
  }

  /** `z.array(z.string())`: an array of strings, which are the list's entries. */
  function StrArr(v: Option<Json>): (r: Result<seq<string>, SchemaError>)
    ensures r.Ok? <==> v.Some? && v.value.JArray? && forall i :: 0 <= i < |v.value.elems| ==> v.value.elems[i].JString?
    ensures r.Ok? ==> v == Some(StringsToJson(r.value))
  {
    var r := Arr(v, ElemStr);
    if r.Ok? then
      assert v.value.elems == StringsToJson(r.value).elems by {
        forall i | 0 <= i < |v.value.elems| ensures v.value.elems[i] == JString(r.value[i]) {
          assert ElemStr(v.value.elems[i]) == Ok(r.value[i]);
        }
      }
      r
    else
      r
  }

  /** `.optional()`: an absent key is accepted as `None`; a present one must pass `f`. */
  function Opt<T>(v: Option<Json>, f: Option<Json> -> Result<T, SchemaError>): (r: Result<Option<T>, SchemaError>)
    ensures v.None? ==> r == Ok(None)
    ensures v.Some? ==> (r.Ok? <==> f(v).Ok?) && (r.Ok? ==> r.value == Some(f(v).value))
  {
    if v.None? then Ok(None)
    else
      var x :- f(v);
      Ok(Some(x))
  }

  /** `z.string().optional()`: absent, or a string that is the value. */
  function OptStr(v: Option<Json>): (r: Result<Option<string>, SchemaError>)
    ensures r.Ok? <==> v.None? || v.value.JString?
    ensures r.Ok? ==> v == OptStrToJson(r.value)
  {
    Opt(v, Str)
  }

  /** `z.array(z.string()).optional()`: absent, or an array of strings that is the list. */
  function OptStrArr(v: Option<Json>): (r: Result<Option<seq<string>>, SchemaError>)
    ensures r.Ok? ==> v == OptStringsToJson(r.value)
  {
    Opt(v, StrArr)
  }

  /** One key of an object schema, checked by `f`; its errors are reported under the key. */
  function Prop<T>(o: map<string, Json>, k: string, f: Option<Json> -> Result<T, SchemaError>): (r: Result<T, SchemaError>)
    ensures r.Ok? <==> f(Lookup(o, k)).Ok?
    ensures r.Ok? ==> r == f(Lookup(o, k))
  {
    Within(Key(k), f(Lookup(o, k)))
  }

  /**
   * The object holds each field of the item under the field's schema key; an
   * optional field that is absent is a key that is absent.
   */
  predicate HoldsItem(o: map<string, Json>, it: Item) {
    match it
    case ExperienceItem(role, company, location, duration, bullets) =>
      && Lookup(o, "role") == Some(JString(role)) && Lookup(o, "company") == Some(JString(company))
      && Lookup(o, "location") == OptStrToJson(location) && Lookup(o, "duration") == Some(JString(duration))
      && Lookup(o, "bullets") == Some(StringsToJson(bullets))
    case EducationItem(degree, institution, location, duration, gpa) =>
      && Lookup(o, "degree") == Some(JString(degree)) && Lookup(o, "institution") == Some(JString(institution))
      && Lookup(o, "location") == OptStrToJson(location) && Lookup(o, "duration") == Some(JString(duration))
      && Lookup(o, "gpa") == OptStrToJson(gpa)
    case SkillsItem(category, items) =>
      Lookup(o, "category") == Some(JString(category)) && Lookup(o, "items") == Some(StringsToJson(items))
    case CustomItem(labelText, value, bullets) =>
      && Lookup(o, "label") == Some(JString(labelText)) && Lookup(o, "value") == OptStrToJson(value)
      && Lookup(o, "bullets") == OptStringsToJson(bullets)
  }

  /** The item schema of a section variant, keys checked in declaration order. */
  function ValidateItem(kind: SectionType, j: Json): (r: Result<Item, SchemaError>)
    ensures r.Ok? ==> KindOf(r.value) == kind
    ensures r.Ok? ==> j.JObject? && HoldsItem(j.fields, r.value)
  {
    var o :- AsObject(j);
    match kind
    case Experience =>
      var role :- Prop(o, "role", Str);
      var company :- Prop(o, "company", Str);
      var location :- Prop(o, "location", OptStr);
      var duration :- Prop(o, "duration", Str);
      var bullets :- Prop(o, "bullets", StrArr);
      Ok(ExperienceItem(role, company, location, duration, bullets))
    case Education =>
      var degree :- Prop(o, "degree", Str);
      var institution :- Prop(o, "institution", Str);
      var location :- Prop(o, "location", OptStr);
      var duration :- Prop(o, "duration", Str);
      var gpa :- Prop(o, "gpa", OptStr);
      Ok(EducationItem(degree, institution, location, duration, gpa))
    case Skills =>
      var category :- Prop(o, "category", Str);
      var items :- Prop(o, "items", StrArr);
      Ok(SkillsItem(category, items))
    case Custom =>
      var labelText :- Prop(o, "label", Str);
      var value :- Prop(o, "value", OptStr);
      var bullets :- Prop(o, "bullets", OptStrArr);
      Ok(CustomItem(labelText, value, bullets))
  }

  /**
   * The object holds a section: its type tag, id and title as strings, and an
   * array of as many elements as the section has items, element `i` validating
   * under the section's type to item `i`.
   */
  predicate HoldsSection(o: map<string, Json>, s: Section) {
    && Lookup(o, "type") == Some(JString(TypeTag(s.kind)))
    && Lookup(o, "id") == Some(JString(s.id))
    && Lookup(o, "title") == Some(JString(s.title))
    && Lookup(o, "items").Some? && Lookup(o, "items").value.JArray?
    && |Lookup(o, "items").value.elems| == |s.items|
    && forall i :: 0 <= i < |s.items| ==> ValidateItem(s.kind, Lookup(o, "items").value.elems[i]) == Ok(s.items[i])
  }

  /** The `type` discriminator must be one of the four literals. */
  function Discriminator(v: Option<Json>): (r: Result<SectionType, SchemaError>)
    ensures r.Ok? <==> v.Some? && v.value.JString? && TypeOfTag(v.value.s).Some?
    ensures r.Ok? ==> v == Some(JString(TypeTag(r.value)))
  {
    if v.Some? && v.value.JString? && TypeOfTag(v.value.s).Some? then Ok(TypeOfTag(v.value.s).value)
    else Err(SchemaError([], "experience | education | skills | custom"))
  }

  /** The discriminated union over the four section schemas. */
  function ValidateSection(j: Json): (r: Result<Section, SchemaError>)
    ensures r.Ok? ==> SectionWellTyped(r.value)
    ensures r.Ok? ==> j.JObject? && HoldsSection(j.fields, r.value)
  {
    var o :- AsObject(j);
    var kind :- Within(Key("type"), Discriminator(Lookup(o, "type")));
    var id :- Prop(o, "id", Str);
    var title :- Prop(o, "title", Str);
    var items :- Prop(o, "items", v => Arr(v, j => ValidateItem(kind, j)));
    Ok(Section(id, kind, title, items))
  }

  /** `z.array(SectionSchema)`: an array each of whose elements is a section object. */
  function Sections(v: Option<Json>): (r: Result<seq<Section>, SchemaError>)
    ensures r.Ok? <==> v.Some? && v.value.JArray? && forall i :: 0 <= i < |v.value.elems| ==> ValidateSection(v.value.elems[i]).Ok?
    ensures r.Ok? ==> (|r.value| == |v.value.elems|
      && forall i :: 0 <= i < |v.value.elems| ==> ValidateSection(v.value.elems[i]) == Ok(r.value[i]))
  {
    Arr(v, ValidateSection)
  }

  /**
   * `ResumeSchema.safeParse`: a well-typed resume, or the first schema issue.
   * Every required header field must be a string, the optional ones absent or
   * strings; keys the schema does not name are dropped.
   */
  function Validate(j: Json): (r: Result<ResumeData, SchemaError>)
    ensures r.Ok? ==> WellTyped(r.value)
    ensures r.Ok? ==> (j.JObject?
      && Lookup(j.fields, "name") == Some(JString(r.value.name))
      && Lookup(j.fields, "title") == Some(JString(r.value.title))
      && Lookup(j.fields, "phone") == Some(JString(r.value.phone))
      && Lookup(j.fields, "email") == Some(JString(r.value.email))
      && Lookup(j.fields, "location") == Some(JString(r.value.location))
      && Lookup(j.fields, "summary") == Some(JString(r.value.summary)))
    ensures r.Ok? ==> ((r.value.nationality.None? <==> "nationality" !in j.fields)
      && (r.value.extraField.None? <==> "extraField" !in j.fields))
    ensures r.Ok? ==> (Lookup(j.fields, "nationality") == OptStrToJson(r.value.nationality)
      && Lookup(j.fields, "extraField") == OptStrToJson(r.value.extraField))
    ensures r.Ok? ==> var v := Lookup(j.fields, "sections");
      && v.Some? && v.value.JArray? && |v.value.elems| == |r.value.sections|
      && forall i :: 0 <= i < |r.value.sections| ==> ValidateSection(v.value.elems[i]) == Ok(r.value.sections[i])
  {
    var o :- AsObject(j);
    var name :- Prop(o, "name", Str);
    var title :- Prop(o, "title", Str);
    var phone :- Prop(o, "phone", Str);
    var email :- Prop(o, "email", Str);
    var location :- Prop(o, "location", Str);
    var nationality :- Prop(o, "nationality", OptStr);
    var extraField :- Prop(o, "extraField", OptStr);
    var summary :- Prop(o, "summary", Str);
    var sections :- Prop(o, "sections", Sections);
    Ok(ResumeData(name, title, phone, email, location, nationality, extraField, summary, sections))
  }

  // ---------------------------------------------------------------------------
  // Serialisation: the JSON object `JSON.stringify` writes for a resume.
  // Optional fields that are absent are left out, as `JSON.stringify` drops
  // `undefined` properties.

  function StringsToJson(xs: seq<string>): Json {
    JArray(seq(|xs|, i requires 0 <= i < |xs| => JString(xs[i])))
  }

  function WithOptional(o: map<string, Json>, k: string, v: Option<Json>): map<string, Json> {
    if v.Some? then o[k := v.value] else o
  }

  function OptStrToJson(v: Option<string>): Option<Json> {
    if v.Some? then Some(JString(v.value)) else None
  }

  function OptStringsToJson(v: Option<seq<string>>): Option<Json> {
    if v.Some? then Some(StringsToJson(v.value)) else None
  }

  function ItemToJson(it: Item): Json {
    match it
    case ExperienceItem(role, company, location, duration, bullets) =>
      JObject(WithOptional(
        map["role" := JString(role), "company" := JString(company),
            "duration" := JString(duration), "bullets" := StringsToJson(bullets)],
        "location", OptStrToJson(location)))
    case EducationItem(degree, institution, location, duration, gpa) =>
      JObject(WithOptional(WithOptional(
        map["degree" := JString(degree), "institution" := JString(institution), "duration" := JString(duration)],
        "location", OptStrToJson(location)), "gpa", OptStrToJson(gpa)))
    case SkillsItem(category, items) =>
      JObject(map["category" := JString(category), "items" := StringsToJson(items)])
    case CustomItem(labelText, value, bullets) =>
      JObject(WithOptional(WithOptional(
        map["label" := JString(labelText)],
        "value", OptStrToJson(value)),
        "bullets", OptStringsToJson(bullets)))
  }

  function ItemsToJson(items: seq<Item>): Json {
    JArray(seq(|items|, i requires 0 <= i < |items| => ItemToJson(items[i])))
  }

  function SectionToJson(s: Section): Json {
    JObject(map[
      "id" := JString(s.id), "type" := JString(TypeTag(s.kind)), "title" := JString(s.title),
      "items" := ItemsToJson(s.items)])
  }

  function SectionsToJson(ss: seq<Section>): Json {
    JArray(seq(|ss|, i requires 0 <= i < |ss| => SectionToJson(ss[i])))
  }

  function ToJson(r: ResumeData): Json {
    JObject(WithOptional(WithOptional(
      map["name" := JString(r.name), "title" := JString(r.title), "phone" := JString(r.phone),
          "email" := JString(r.email), "location" := JString(r.location), "summary" := JString(r.summary),
          "sections" := SectionsToJson(r.sections)],
      "nationality", OptStrToJson(r.nationality)),
      "extraField", OptStrToJson(r.extraField)))
  }

  // ---------------------------------------------------------------------------
  // Round trips

  lemma StringsRoundTrip(xs: seq<string>)
    ensures StrArr(Some(StringsToJson(xs))) == Ok(xs)
  {
    var r := StrArr(Some(StringsToJson(xs)));
    assert forall i :: 0 <= i < |xs| ==> ElemStr(StringsToJson(xs).elems[i]) == Ok(xs[i]);
    assert r.value == xs;
  }

  /** An item's JSON passes exactly its own variant's item schema, and gives the item back. */
  lemma ItemRoundTrip(kind: SectionType, it: Item)
    ensures ValidateItem(kind, ItemToJson(it)).Ok? <==> KindOf(it) == kind
    ensures KindOf(it) == kind ==> ValidateItem(kind, ItemToJson(it)) == Ok(it)
  {
    if KindOf(it) == kind {
      ItemRoundTripSameKind(it);
    } else {
      ItemOtherKindRejected(kind, it);
    }
  }

  lemma ItemRoundTripSameKind(it: Item)
    ensures ValidateItem(KindOf(it), ItemToJson(it)) == Ok(it)
  {
    var o := ItemToJson(it).fields;
    ItemHeld(it);
    ItemAccepted(o, it);
  }

  /** An item's JSON holds each of its fields under the field's key. */
  lemma ItemHeld(it: Item)
    ensures HoldsItem(ItemToJson(it).fields, it)
  {
    var o := ItemToJson(it).fields;
    match it
    case ExperienceItem(role, company, location, duration, bullets) =>
      assert Lookup(o, "role") == Some(JString(role)) && Lookup(o, "company") == Some(JString(company));
      assert Lookup(o, "location") == OptStrToJson(location) && Lookup(o, "duration") == Some(JString(duration));
      assert Lookup(o, "bullets") == Some(StringsToJson(bullets));
    case EducationItem(degree, institution, location, duration, gpa) =>
      assert Lookup(o, "degree") == Some(JString(degree)) && Lookup(o, "institution") == Some(JString(institution));
      assert Lookup(o, "location") == OptStrToJson(location) && Lookup(o, "duration") == Some(JString(duration));
      assert Lookup(o, "gpa") == OptStrToJson(gpa);
    case SkillsItem(category, items) =>
      assert Lookup(o, "category") == Some(JString(category)) && Lookup(o, "items") == Some(StringsToJson(items));
    case CustomItem(labelText, value, bullets) =>
      assert Lookup(o, "label") == Some(JString(labelText)) && Lookup(o, "value") == OptStrToJson(value);
      assert Lookup(o, "bullets") == OptStringsToJson(bullets);
  }

  /**
   * The item schema accepts an object with exactly the item it holds: together
   * with `ValidateItem`'s contract, `ValidateItem(kind, j) == Ok(it)` exactly when
   * `j` is an object holding `it` and `it` is of variant `kind`.
   */
  lemma ValidateItemExactly(kind: SectionType, j: Json, it: Item)
    ensures ValidateItem(kind, j) == Ok(it) <==> j.JObject? && KindOf(it) == kind && HoldsItem(j.fields, it)
  {
    if j.JObject? && KindOf(it) == kind && HoldsItem(j.fields, it) {
      ItemAccepted(j.fields, it);
    }
  }

  lemma ItemAccepted(o: map<string, Json>, it: Item)
    requires HoldsItem(o, it)
    ensures ValidateItem(KindOf(it), JObject(o)) == Ok(it)
  {
    match it
    case ExperienceItem(_, _, _, _, _) => ExperienceAccepted(o, it);
    case EducationItem(_, _, _, _, _) => EducationAccepted(o, it);
    case SkillsItem(_, _) => SkillsAccepted(o, it);
    case CustomItem(_, _, _) => CustomAccepted(o, it);
  }

  lemma ExperienceAccepted(o: map<string, Json>, it: Item)
    requires it.ExperienceItem? && HoldsItem(o, it)
    ensures ValidateItem(Experience, JObject(o)) == Ok(it)
  {
    StringsRoundTrip(it.bullets);
    assert Prop(o, "role", Str) == Ok(it.role);
    assert Prop(o, "company", Str) == Ok(it.company);
    assert Prop(o, "location", OptStr) == Ok(it.location);
    assert Prop(o, "duration", Str) == Ok(it.duration);
    assert Prop(o, "bullets", StrArr) == Ok(it.bullets);
  }

  lemma EducationAccepted(o: map<string, Json>, it: Item)
    requires it.EducationItem? && HoldsItem(o, it)
    ensures ValidateItem(Education, JObject(o)) == Ok(it)
  {
    assert Prop(o, "degree", Str) == Ok(it.degree);
    assert Prop(o, "institution", Str) == Ok(it.institution);
    assert Prop(o, "location", OptStr) == Ok(it.location);
    assert Prop(o, "duration", Str) == Ok(it.duration);
    assert Prop(o, "gpa", OptStr) == Ok(it.gpa);
  }

  lemma SkillsAccepted(o: map<string, Json>, it: Item)
    requires it.SkillsItem? && HoldsItem(o, it)
    ensures ValidateItem(Skills, JObject(o)) == Ok(it)
  {
    StringsRoundTrip(it.items);
    assert Prop(o, "category", Str) == Ok(it.category);
    assert Prop(o, "items", StrArr) == Ok(it.items);
  }

  lemma CustomAccepted(o: map<string, Json>, it: Item)
    requires it.CustomItem? && HoldsItem(o, it)
    ensures ValidateItem(Custom, JObject(o)) == Ok(it)
  {
    if it.customBullets.Some? {
      StringsRoundTrip(it.customBullets.value);
    }
    assert Prop(o, "label", Str) == Ok(it.labelText);
    assert Prop(o, "value", OptStr) == Ok(it.value);
    assert Prop(o, "bullets", OptStrArr) == Ok(it.customBullets);
  }

  /** Every item schema has a required key no other variant's item carries. */
  lemma ItemOtherKindRejected(kind: SectionType, it: Item)
    requires KindOf(it) != kind
    ensures ValidateItem(kind, ItemToJson(it)).Err?
  {
    var o := ItemToJson(it).fields;
    match kind
    case Experience => assert "role" !in o;
    case Education => assert "degree" !in o;
    case Skills => assert "category" !in o;
    case Custom => assert "label" !in o;
  }

  /** A section's JSON validates exactly when the section is well typed, and gives the section back. */
  lemma SectionRoundTrip(s: Section)
    ensures ValidateSection(SectionToJson(s)).Ok? <==> SectionWellTyped(s)
    ensures SectionWellTyped(s) ==> ValidateSection(SectionToJson(s)) == Ok(s)
  {
    SectionLookups(s);
    ItemsRoundTrip(s);
  }

  /** The keys of a section's JSON hold its tag, id, title and items. */
  lemma SectionLookups(s: Section)
    ensures var o := SectionToJson(s).fields;
      && Lookup(o, "type") == Some(JString(TypeTag(s.kind)))
      && Prop(o, "id", Str) == Ok(s.id)
      && Prop(o, "title", Str) == Ok(s.title)
      && Lookup(o, "items") == Some(ItemsToJson(s.items))
  {
    var o := SectionToJson(s).fields;
    assert Lookup(o, "id") == Some(JString(s.id));
    assert Lookup(o, "title") == Some(JString(s.title));
  }

  /** A section's items pass its variant's item schema exactly when they are all of that variant. */
  lemma ItemsRoundTrip(s: Section)
    ensures var f := (j: Json) => ValidateItem(s.kind, j);
      && (Arr(Some(ItemsToJson(s.items)), f).Ok? <==> SectionWellTyped(s))
      && (SectionWellTyped(s) ==> Arr(Some(ItemsToJson(s.items)), f) == Ok(s.items))
  {
    var f := (j: Json) => ValidateItem(s.kind, j);
    var elems := ItemsToJson(s.items).elems;
    forall i | 0 <= i < |s.items|
      ensures f(elems[i]).Ok? <==> KindOf(s.items[i]) == s.kind
      ensures KindOf(s.items[i]) == s.kind ==> f(elems[i]) == Ok(s.items[i])
    {
      ItemRoundTrip(s.kind, s.items[i]);
    }
    if SectionWellTyped(s) {
      var items := Arr(Some(ItemsToJson(s.items)), f);
      assert items.Ok?;
      assert items.value == s.items;
    }
  }

  /**
   * The section schema accepts an object with exactly the section it holds:
   * `ValidateSection(j) == Ok(s)` exactly when `j` is an object holding `s`,
   * whatever other keys it has.
   */
  lemma ValidateSectionExactly(j: Json, s: Section)
    ensures ValidateSection(j) == Ok(s) <==> j.JObject? && HoldsSection(j.fields, s)
  {
    if j.JObject? && HoldsSection(j.fields, s) {
      SectionAccepted(j.fields, s);
    }
  }

  lemma SectionAccepted(o: map<string, Json>, s: Section)
    requires HoldsSection(o, s)
    ensures ValidateSection(JObject(o)) == Ok(s)
  {
    var f := (j: Json) => ValidateItem(s.kind, j);
    assert Discriminator(Lookup(o, "type")) == Ok(s.kind);
    assert Prop(o, "id", Str) == Ok(s.id);
    assert Prop(o, "title", Str) == Ok(s.title);
    var items := Arr(Lookup(o, "items"), f);
    assert items.Ok?;
    assert items.value == s.items;
  }

  /** Keys a section schema does not name do not change the outcome for that section. */
  lemma SectionUnknownKeysIgnored(o: map<string, Json>, k: string, v: Json)
    requires k !in {"type", "id", "title", "items"}
    ensures ValidateSection(JObject(o[k := v])) == ValidateSection(JObject(o))
  {
    var o' := o[k := v];
    assert Lookup(o', "type") == Lookup(o, "type");
    assert Lookup(o', "id") == Lookup(o, "id");
    assert Lookup(o', "title") == Lookup(o, "title");
    assert Lookup(o', "items") == Lookup(o, "items");
  }

  /** The JSON array of well-typed sections validates back to those sections. */
  lemma SectionsRoundTrip(ss: seq<Section>)
    requires forall i :: 0 <= i < |ss| ==> SectionWellTyped(ss[i])
    ensures Sections(Some(SectionsToJson(ss))) == Ok(ss)
  {
    var elems := SectionsToJson(ss).elems;
    forall i | 0 <= i < |ss| ensures ValidateSection(elems[i]) == Ok(ss[i]) {
      SectionRoundTrip(ss[i]);
    }
    var r := Sections(Some(SectionsToJson(ss)));
    assert r.Ok?;
    assert r.value == ss;
  }

  /** Validation succeeds with `r` as soon as every key of the schema yields `r`'s field. */
  lemma ValidateFromProps(o: map<string, Json>, r: ResumeData)
    requires Prop(o, "name", Str) == Ok(r.name) && Prop(o, "title", Str) == Ok(r.title)
    requires Prop(o, "phone", Str) == Ok(r.phone) && Prop(o, "email", Str) == Ok(r.email)
    requires Prop(o, "location", Str) == Ok(r.location)
    requires Prop(o, "nationality", OptStr) == Ok(r.nationality)
    requires Prop(o, "extraField", OptStr) == Ok(r.extraField)
    requires Prop(o, "summary", Str) == Ok(r.summary)
    requires Prop(o, "sections", Sections) == Ok(r.sections)
    ensures Validate(JObject(o)) == Ok(r)
  {
  }

  lemma ValidateToJson(r: ResumeData)
    requires WellTyped(r)
    ensures Validate(ToJson(r)) == Ok(r)
  {
    HeaderLookups(r);
    OptionalLookups(r);
    SectionsRoundTrip(r.sections);
    ValidateFromProps(ToJson(r).fields, r);
  }

  /** The required header keys of a resume's JSON hold its strings. */
  lemma HeaderLookups(r: ResumeData)
    ensures var o := ToJson(r).fields;
      && Prop(o, "name", Str) == Ok(r.name)
      && Prop(o, "title", Str) == Ok(r.title)
      && Prop(o, "phone", Str) == Ok(r.phone)
      && Prop(o, "email", Str) == Ok(r.email)
      && Prop(o, "location", Str) == Ok(r.location)
      && Prop(o, "summary", Str) == Ok(r.summary)
  {
    var o := ToJson(r).fields;
    assert Lookup(o, "name") == Some(JString(r.name));
    assert Lookup(o, "title") == Some(JString(r.title));
    assert Lookup(o, "phone") == Some(JString(r.phone));
    assert Lookup(o, "email") == Some(JString(r.email));
    assert Lookup(o, "location") == Some(JString(r.location));
    assert Lookup(o, "summary") == Some(JString(r.summary));
  }

  /** The optional keys of a resume's JSON are present exactly when set, and `sections` holds the sections. */
  lemma OptionalLookups(r: ResumeData)
    ensures var o := ToJson(r).fields;
      && Prop(o, "nationality", OptStr) == Ok(r.nationality)
      && Prop(o, "extraField", OptStr) == Ok(r.extraField)
      && Lookup(o, "sections") == Some(SectionsToJson(r.sections))
  {
    var o := ToJson(r).fields;
    assert Lookup(o, "nationality") == OptStrToJson(r.nationality);
    assert Lookup(o, "extraField") == OptStrToJson(r.extraField);
    assert Lookup(o, "sections") == Some(SectionsToJson(r.sections));
  }

  /**
   * Storage round trip: validating the JSON of a resume gives the resume back
   * exactly when it is well typed.
   */
  lemma RoundTrip(r: ResumeData)
    ensures Validate(ToJson(r)) == Ok(r) <==> WellTyped(r)
  {
    if WellTyped(r) {
      ValidateToJson(r);
    }
  }

  /** `defaultResume` passes the schema. */
  lemma DefaultResumeValidates()
    ensures Validate(ToJson(DefaultResume)) == Ok(DefaultResume)
  {
    RoundTrip(DefaultResume);
  }

  /** Section ids are only checked to be strings: two sections may share one, even the empty one. */
  lemma DuplicateIdsAccepted(kind: SectionType)
    ensures var s := Section("", kind, "", []);
      Validate(ToJson(DefaultResume.(sections := [s, s]))) == Ok(DefaultResume.(sections := [s, s]))
  {
    var s := Section("", kind, "", []);
    RoundTrip(DefaultResume.(sections := [s, s]));
  }

  /** Keys the schema does not name do not change the outcome. */
  lemma UnknownKeysIgnored(o: map<string, Json>, k: string, v: Json)
    requires k !in {"name", "title", "phone", "email", "location", "nationality", "extraField", "summary", "sections"}
    ensures Validate(JObject(o[k := v])) == Validate(JObject(o))
  {
    var o' := o[k := v];
    assert Prop(o', "name", Str) == Prop(o, "name", Str);
    assert Prop(o', "title", Str) == Prop(o, "title", Str);
    assert Prop(o', "phone", Str) == Prop(o, "phone", Str);
    assert Prop(o', "email", Str) == Prop(o, "email", Str);
    assert Prop(o', "location", Str) == Prop(o, "location", Str);
    assert Prop(o', "nationality", OptStr) == Prop(o, "nationality", OptStr);
    assert Prop(o', "extraField", OptStr) == Prop(o, "extraField", OptStr);
    assert Prop(o', "summary", Str) == Prop(o, "summary", Str);
    assert Prop(o', "sections", Sections) == Prop(o, "sections", Sections);
  }
}
