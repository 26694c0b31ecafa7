/**
 * The editor operations of `src/components/ResumeForm.tsx`. Each one builds a
 * new resume from the current one (object spread, `filter`, `map`, or a push
 * onto a fresh copy of an array), so each is a function from resume to resume.
 * Fresh section ids come from a random generator; here they are parameters.
 */
module ResumeForm {
  import opened Wrappers
  import opened Strings
  import opened Types

  // ---------------------------------------------------------------------------
  // Header fields: `update(key, val)`

  /** The string-valued keys of the resume that the form edits directly. */
  datatype Field = Name | Title | Phone | Email | Location | Nationality | ExtraField | Summary

  /** A field's current value; an optional field that is absent reads as `None`. */
  function Get(r: ResumeData, k: Field): Option<string> {
    match k
    case Name => Some(r.name)
    case Title => Some(r.title)
    case Phone => Some(r.phone)
    case Email => Some(r.email)
    case Location => Some(r.location)
    case Nationality => r.nationality
    case ExtraField => r.extraField
    case Summary => Some(r.summary)
  }

  /** Two resumes that agree on every field and on the sections are the same resume. */
  lemma FieldsDetermine(r: ResumeData, r': ResumeData)
    requires forall k :: Get(r, k) == Get(r', k)
    requires r.sections == r'.sections
    ensures r == r'
  {
    assert Get(r, Name) == Get(r', Name) && Get(r, Title) == Get(r', Title);
    assert Get(r, Phone) == Get(r', Phone) && Get(r, Email) == Get(r', Email);
    assert Get(r, Location) == Get(r', Location) && Get(r, Summary) == Get(r', Summary);
    assert Get(r, Nationality) == Get(r', Nationality) && Get(r, ExtraField) == Get(r', ExtraField);
  }

  /** `update(key, val)` for a header field: the resume is unchanged except at `key`. */
  function Update(r: ResumeData, k: Field, v: string): (r': ResumeData)
    ensures Get(r', k) == Some(v)
    ensures forall k' :: k' != k ==> Get(r', k') == Get(r, k')
    ensures r'.sections == r.sections
  {
    match k
    case Name => r.(name := v)
    case Title => r.(title := v)
    case Phone => r.(phone := v)
    case Email => r.(email := v)
    case Location => r.(location := v)
    case Nationality => r.(nationality := Some(v))
    case ExtraField => r.(extraField := Some(v))
    case Summary => r.(summary := v)
  }

  /** Writing the value a field already holds changes nothing. */
  lemma UpdateSameValue(r: ResumeData, k: Field)
    requires Get(r, k).Some?
    ensures Update(r, k, Get(r, k).value) == r
  {
    FieldsDetermine(Update(r, k, Get(r, k).value), r);
  }

  /** Of two writes to one field, the later one wins. */
  lemma UpdateLastWins(r: ResumeData, k: Field, v: string, w: string)
    ensures Update(Update(r, k, v), k, w) == Update(r, k, w)
  {
    FieldsDetermine(Update(Update(r, k, v), k, w), Update(r, k, w));
  }

  /** Writes to two different fields commute. */
  lemma UpdateCommutes(r: ResumeData, k: Field, v: string, k': Field, w: string)
    requires k != k'
    ensures Update(Update(r, k, v), k', w) == Update(Update(r, k', w), k, v)
  {
    FieldsDetermine(Update(Update(r, k, v), k', w), Update(Update(r, k', w), k, v));
  }

  /** Header edits never touch the sections, so they keep the resume well typed. */
  lemma UpdateKeepsWellTyped(r: ResumeData, k: Field, v: string)
    requires WellTyped(r)
    ensures WellTyped(Update(r, k, v))
  {
  }

  // ---------------------------------------------------------------------------
  // Removal by index: `xs.filter((_, i) => i !== index)`

  /** Drops the element at position `i`; an index outside the list drops nothing. */
  function RemoveAt<T>(xs: seq<T>, i: int): (r: seq<T>)
    ensures 0 <= i < |xs| ==> |r| == |xs| - 1
    ensures 0 <= i < |xs| ==> forall j :: 0 <= j < i ==> r[j] == xs[j]
    ensures 0 <= i < |xs| ==> forall j :: i <= j < |r| ==> r[j] == xs[j + 1]
    ensures !(0 <= i < |xs|) ==> r == xs
  {
    if xs == [] then []
    else
      var n := |xs| - 1;
      RemoveAt(xs[..n], i) + (if n == i then [] else [xs[n]])
  }

  /** Every element that remains was in the list: removal only loses elements. */
  lemma RemoveAtSubset<T>(xs: seq<T>, i: int, j: int)
    requires 0 <= j < |RemoveAt(xs, i)|
    ensures exists k :: 0 <= k < |xs| && k != i && RemoveAt(xs, i)[j] == xs[k]
  {
    if 0 <= i < |xs| {
      if j < i {
        assert RemoveAt(xs, i)[j] == xs[j];
      } else {
        assert RemoveAt(xs, i)[j] == xs[j + 1];
      }
    } else {
      assert RemoveAt(xs, i)[j] == xs[j];
    }
  }

  /** Removing the element at `i` of `a + [x] + b`, where `i` is `x`'s position, gives `a + b`. */
  lemma RemoveAtSplice<T>(a: seq<T>, x: T, b: seq<T>)
    ensures RemoveAt(a + [x] + b, |a|) == a + b
  {
    var xs := a + [x] + b;
    var r := RemoveAt(xs, |a|);
    assert forall j :: 0 <= j < |a| ==> r[j] == (a + b)[j];
    assert forall j :: |a| <= j < |r| ==> r[j] == xs[j + 1] == (a + b)[j];
  }

  // ---------------------------------------------------------------------------
  // Sections

  /** `updateSection(index, section)`: exactly position `index` is replaced. */
  function UpdateSection(r: ResumeData, i: nat, s: Section): (r': ResumeData)
    requires i < |r.sections|
    ensures |r'.sections| == |r.sections| && r'.sections[i] == s
    ensures forall j :: 0 <= j < |r.sections| && j != i ==> r'.sections[j] == r.sections[j]
    ensures forall k :: Get(r', k) == Get(r, k)
    ensures WellTyped(r) && SectionWellTyped(s) ==> WellTyped(r')
  {
    r.(sections := r.sections[i := s])
  }

  /** `removeSection(index)`: the section at `index` goes, the rest keep their order. */
  function RemoveSection(r: ResumeData, i: int): (r': ResumeData)
    ensures 0 <= i < |r.sections| ==> (|r'.sections| == |r.sections| - 1
      && (forall j :: 0 <= j < i ==> r'.sections[j] == r.sections[j])
      && (forall j :: i <= j < |r'.sections| ==> r'.sections[j] == r.sections[j + 1]))
    ensures !(0 <= i < |r.sections|) ==> r' == r
    ensures forall k :: Get(r', k) == Get(r, k)
    ensures WellTyped(r) ==> WellTyped(r')
  {
    var r' := r.(sections := RemoveAt(r.sections, i));
    assert WellTyped(r) ==> forall j :: 0 <= j < |r'.sections| ==> SectionWellTyped(r'.sections[j]) by {
      forall j | 0 <= j < |r'.sections|
        ensures exists k :: 0 <= k < |r.sections| && r'.sections[j] == r.sections[k]
      {
        RemoveAtSubset(r.sections, i, j);
      }
    }
    r'
  }

  /** The title a new section of each type starts with; it is never empty. */
  function DefaultTitle(kind: SectionType): (t: string)
    ensures t != ""
  {
    match kind
    case Experience => "Experience"
    case Education => "Education"
    case Skills => "Skills"
    case Custom => "Custom Section"
  }

  /** Sections of different types start with different titles. */
  lemma DefaultTitlesDistinct(a: SectionType, b: SectionType)
    requires a != b
    ensures DefaultTitle(a) != DefaultTitle(b)
  {
  }

  /** `addSection(type)`: one empty section of that type, with the given fresh id, at the end. */
  function AddSection(r: ResumeData, kind: SectionType, id: string): (r': ResumeData)
    ensures |r'.sections| == |r.sections| + 1 && r'.sections[..|r.sections|] == r.sections
    ensures var s := r'.sections[|r.sections|];
      s.id == id && s.kind == kind && s.items == [] && s.title == DefaultTitle(kind)
    ensures forall k :: Get(r', k) == Get(r, k)
    ensures WellTyped(r) ==> WellTyped(r')
  {
    r.(sections := r.sections + [Section(id, kind, DefaultTitle(kind), [])])
  }

  /** Removing the section just added restores the resume. */
  lemma RemoveAddedSection(r: ResumeData, kind: SectionType, id: string)
    ensures RemoveSection(AddSection(r, kind, id), |r.sections|) == r
  {
    RemoveAtSplice(r.sections, Section(id, kind, DefaultTitle(kind), []), []);
    assert r.sections + [Section(id, kind, DefaultTitle(kind), [])] + [] == AddSection(r, kind, id).sections;
    assert r.sections + [] == r.sections;
  }

  /** The section header's title edit: `{ ...section, title }`. */
  function Retitle(r: ResumeData, i: nat, title: string): (r': ResumeData)
    requires i < |r.sections|
    ensures |r'.sections| == |r.sections|
    ensures r'.sections[i].title == title
    ensures var s, s' := r.sections[i], r'.sections[i]; s'.id == s.id && s'.kind == s.kind && s'.items == s.items
    ensures forall j :: 0 <= j < |r.sections| && j != i ==> r'.sections[j] == r.sections[j]
    ensures forall k :: Get(r', k) == Get(r, k)
    ensures WellTyped(r) ==> WellTyped(r')
  {
    UpdateSection(r, i, r.sections[i].(title := title))
  }

  // ---------------------------------------------------------------------------
  // Items

  /** The empty item `onAdd` pushes for each section type. */
  function EmptyItem(kind: SectionType): (it: Item)
    ensures KindOf(it) == kind
  {
    match kind
    case Experience => ExperienceItem("", "", Some(""), "", [])
    case Education => EducationItem("", "", Some(""), "", Some(""))
    case Skills => SkillsItem("", [])
    case Custom => CustomItem("", Some(""), Some([]))
  }

  /** The pushed object passes its own type's item schema and no other. */
  lemma EmptyItemValidates(kind: SectionType, other: SectionType)
    requires other != kind
    ensures ValidateItem(kind, ItemToJson(EmptyItem(kind))) == Ok(EmptyItem(kind))
    ensures ValidateItem(other, ItemToJson(EmptyItem(kind))).Err?
  {
    ItemRoundTrip(kind, EmptyItem(kind));
    ItemRoundTrip(other, EmptyItem(kind));
  }

  /** `onAdd`: one empty item of the section's own shape is appended to that section. */
  function AddItem(r: ResumeData, i: nat): (r': ResumeData)
    requires i < |r.sections|
    ensures |r'.sections| == |r.sections|
    ensures var s, s' := r.sections[i], r'.sections[i];
      && s'.id == s.id && s'.kind == s.kind && s'.title == s.title
      && |s'.items| == |s.items| + 1 && s'.items[..|s.items|] == s.items
      && s'.items[|s.items|] == EmptyItem(s.kind)
    ensures forall j :: 0 <= j < |r.sections| && j != i ==> r'.sections[j] == r.sections[j]
    ensures forall k :: Get(r', k) == Get(r, k)
    ensures WellTyped(r) ==> WellTyped(r')
  {
    var s := r.sections[i];
    var s' := s.(items := s.items + [EmptyItem(s.kind)]);
    assert SectionWellTyped(s) ==> SectionWellTyped(s') by {
      assert forall j :: 0 <= j < |s.items| ==> s'.items[j] == s.items[j];
    }
    UpdateSection(r, i, s')
  }

  /**
   * The one-key patches the item inputs send. A list field carries the raw
   * text of its textarea, which the patch splits on newlines.
   */
  datatype ItemPatch =
    | SetRole(role: string)
    | SetCompany(company: string)
    | SetLocation(location: string)
    | SetDuration(duration: string)
    | SetBulletsText(text: string)
    | SetDegree(degree: string)
    | SetInstitution(institution: string)
    | SetGpa(gpa: string)
    | SetCategory(category: string)
    | SetItemsText(text: string)
    | SetLabel(labelText: string)
    | SetValue(value: string)

  /** The patches the inputs of each section type can send. */
  predicate PatchFits(kind: SectionType, p: ItemPatch) {
    match kind
    case Experience => p.SetRole? || p.SetCompany? || p.SetLocation? || p.SetDuration? || p.SetBulletsText?
    case Education => p.SetDegree? || p.SetInstitution? || p.SetLocation? || p.SetDuration? || p.SetGpa?
    case Skills => p.SetCategory? || p.SetItemsText?
    case Custom => p.SetLabel? || p.SetValue? || p.SetBulletsText?
  }

  /** The keys of the item objects that the item inputs edit. */
  datatype ItemKey =
    | RoleKey | CompanyKey | LocationKey | DurationKey | BulletsKey | DegreeKey
    | InstitutionKey | GpaKey | CategoryKey | ItemsKey | LabelKey | ValueKey

  /** What a key of an item object reads: a string, a list of strings, or nothing (absent or not in the shape). */
  datatype FieldValue = Missing | Text(text: string) | List(entries: seq<string>)

  function OptText(o: Option<string>): FieldValue {
    if o.Some? then Text(o.value) else Missing
  }

  /** `it[k]`: the value the item holds under key `k`. */
  function ItemGet(it: Item, k: ItemKey): FieldValue {
    match k
    case RoleKey => if it.ExperienceItem? then Text(it.role) else Missing
    case CompanyKey => if it.ExperienceItem? then Text(it.company) else Missing
    case LocationKey => if it.ExperienceItem? || it.EducationItem? then OptText(it.location) else Missing
    case DurationKey => if it.ExperienceItem? || it.EducationItem? then Text(it.duration) else Missing
    case BulletsKey =>
      if it.ExperienceItem? then List(it.bullets)
      else if it.CustomItem? && it.customBullets.Some? then List(it.customBullets.value)
      else Missing
    case DegreeKey => if it.EducationItem? then Text(it.degree) else Missing
    case InstitutionKey => if it.EducationItem? then Text(it.institution) else Missing
    case GpaKey => if it.EducationItem? then OptText(it.gpa) else Missing
    case CategoryKey => if it.SkillsItem? then Text(it.category) else Missing
    case ItemsKey => if it.SkillsItem? then List(it.items) else Missing
    case LabelKey => if it.CustomItem? then Text(it.labelText) else Missing
    case ValueKey => if it.CustomItem? then OptText(it.value) else Missing
  }

  /** Two items of one shape that agree on every key are the same item. */
  lemma ItemFieldsDetermine(it: Item, it': Item)
    requires KindOf(it) == KindOf(it')
    requires forall k :: ItemGet(it, k) == ItemGet(it', k)
    ensures it == it'
  {
    assert ItemGet(it, RoleKey) == ItemGet(it', RoleKey) && ItemGet(it, CompanyKey) == ItemGet(it', CompanyKey);
    assert ItemGet(it, LocationKey) == ItemGet(it', LocationKey) && ItemGet(it, DurationKey) == ItemGet(it', DurationKey);
    assert ItemGet(it, BulletsKey) == ItemGet(it', BulletsKey) && ItemGet(it, DegreeKey) == ItemGet(it', DegreeKey);
    assert ItemGet(it, InstitutionKey) == ItemGet(it', InstitutionKey) && ItemGet(it, GpaKey) == ItemGet(it', GpaKey);
    assert ItemGet(it, CategoryKey) == ItemGet(it', CategoryKey) && ItemGet(it, ItemsKey) == ItemGet(it', ItemsKey);
    assert ItemGet(it, LabelKey) == ItemGet(it', LabelKey) && ItemGet(it, ValueKey) == ItemGet(it', ValueKey);
  }

  /** The key a patch writes. */
  function PatchKey(p: ItemPatch): ItemKey {
    match p
    case SetRole(_) => RoleKey
    case SetCompany(_) => CompanyKey
    case SetLocation(_) => LocationKey
    case SetDuration(_) => DurationKey
    case SetBulletsText(_) => BulletsKey
    case SetDegree(_) => DegreeKey
    case SetInstitution(_) => InstitutionKey
    case SetGpa(_) => GpaKey
    case SetCategory(_) => CategoryKey
    case SetItemsText(_) => ItemsKey
    case SetLabel(_) => LabelKey
    case SetValue(_) => ValueKey
  }

  /** The value a patch writes: a list textarea's text is split on newlines. */
  function PatchValue(p: ItemPatch): FieldValue {
    match p
    case SetBulletsText(t) => List(Split(t, '\n'))
    case SetItemsText(t) => List(Split(t, '\n'))
    case SetRole(v) => Text(v)
    case SetCompany(v) => Text(v)
    case SetLocation(v) => Text(v)
    case SetDuration(v) => Text(v)
    case SetDegree(v) => Text(v)
    case SetInstitution(v) => Text(v)
    case SetGpa(v) => Text(v)
    case SetCategory(v) => Text(v)
    case SetLabel(v) => Text(v)
    case SetValue(v) => Text(v)
  }

  /**
   * `{ ...it, ...patch }` for a patch the item's inputs can send: the patched
   * key reads the sent value and every other key is kept.
   */
  function ApplyPatch(it: Item, p: ItemPatch): (it': Item)
    requires PatchFits(KindOf(it), p)
    ensures KindOf(it') == KindOf(it)
    ensures ItemGet(it', PatchKey(p)) == PatchValue(p)
    ensures forall k :: k != PatchKey(p) ==> ItemGet(it', k) == ItemGet(it, k)
  {
    match p
    case SetRole(v) => it.(role := v)
    case SetCompany(v) => it.(company := v)
    case SetLocation(v) => it.(location := Some(v))
    case SetDuration(v) => it.(duration := v)
    case SetBulletsText(t) =>
      if it.ExperienceItem? then it.(bullets := Split(t, '\n')) else it.(customBullets := Some(Split(t, '\n')))
    case SetDegree(v) => it.(degree := v)
    case SetInstitution(v) => it.(institution := v)
    case SetGpa(v) => it.(gpa := Some(v))
    case SetCategory(v) => it.(category := v)
    case SetItemsText(t) => it.(items := Split(t, '\n'))
    case SetLabel(v) => it.(labelText := v)
    case SetValue(v) => it.(value := Some(v))
  }

  /** Of two patches to one key, the later wins. */
  lemma PatchLastWins(it: Item, p: ItemPatch, q: ItemPatch)
    requires PatchFits(KindOf(it), p) && PatchFits(KindOf(it), q)
    requires PatchKey(p) == PatchKey(q)
    ensures ApplyPatch(ApplyPatch(it, p), q) == ApplyPatch(it, q)
  {
    ItemFieldsDetermine(ApplyPatch(ApplyPatch(it, p), q), ApplyPatch(it, q));
  }

  /** Patches to different keys commute. */
  lemma PatchesCommute(it: Item, p: ItemPatch, q: ItemPatch)
    requires PatchFits(KindOf(it), p) && PatchFits(KindOf(it), q)
    requires PatchKey(p) != PatchKey(q)
    ensures ApplyPatch(ApplyPatch(it, p), q) == ApplyPatch(ApplyPatch(it, q), p)
  {
    ItemFieldsDetermine(ApplyPatch(ApplyPatch(it, p), q), ApplyPatch(ApplyPatch(it, q), p));
  }

  /** What a list textarea shows: `bullets.join("\n")` (a custom item's missing bullets show as empty). */
  function ListText(it: Item): (t: string)
    ensures it.EducationItem? || (it.CustomItem? && it.customBullets.None?) ==> t == ""
  {
    match it
    case ExperienceItem(_, _, _, _, bullets) => Join(bullets, "\n")
    case SkillsItem(_, items) => Join(items, "\n")
    case CustomItem(_, _, bullets) => Join(bullets.GetOr([]), "\n")
    case EducationItem(_, _, _, _, _) => ""
  }

  /** The list patch an item's textarea sends. */
  function ListPatch(it: Item, text: string): (p: ItemPatch)
    requires !it.EducationItem?
    ensures PatchFits(KindOf(it), p)
  {
    if it.SkillsItem? then SetItemsText(text) else SetBulletsText(text)
  }

  /** Whatever is typed into a list textarea is exactly what it shows afterwards. */
  lemma ListEditShowsTyped(it: Item, text: string)
    requires !it.EducationItem?
    ensures ListText(ApplyPatch(it, ListPatch(it, text))) == text
  {
    JoinSplit(text, '\n');
  }

  /**
   * Re-sending the shown text leaves a non-empty list whose entries hold no
   * newline as it was.
   */
  lemma ListEditKeepsList(it: Item)
    requires !it.EducationItem?
    requires it.ExperienceItem? ==> |it.bullets| >= 1 && forall k :: 0 <= k < |it.bullets| ==> '\n' !in it.bullets[k]
    requires it.SkillsItem? ==> |it.items| >= 1 && forall k :: 0 <= k < |it.items| ==> '\n' !in it.items[k]
    requires it.CustomItem? ==> (it.customBullets.Some? && |it.customBullets.value| >= 1
      && forall k :: 0 <= k < |it.customBullets.value| ==> '\n' !in it.customBullets.value[k])
    ensures ApplyPatch(it, ListPatch(it, ListText(it))) == it
  {
    match it
    case ExperienceItem(_, _, _, _, bullets) =>
      var t := Join(bullets, "\n");
      SplitJoin(bullets, '\n');
      assert ListPatch(it, ListText(it)) == SetBulletsText(t);
      assert ApplyPatch(it, SetBulletsText(t)) == it.(bullets := Split(t, '\n'));
    case SkillsItem(_, items) =>
      var t := Join(items, "\n");
      SplitJoin(items, '\n');
      assert ListPatch(it, ListText(it)) == SetItemsText(t);
      assert ApplyPatch(it, SetItemsText(t)) == it.(items := Split(t, '\n'));
    case CustomItem(_, _, bullets) =>
      var t := Join(bullets.value, "\n");
      SplitJoin(bullets.value, '\n');
      assert ListPatch(it, ListText(it)) == SetBulletsText(t);
      assert ApplyPatch(it, SetBulletsText(t)) == it.(customBullets := Some(Split(t, '\n')));
  }

  /** An empty list does not survive an edit of its textarea: it comes back as one empty entry. */
  lemma EmptyListBecomesBlank(it: Item)
    requires it.ExperienceItem? && it.bullets == []
    ensures ApplyPatch(it, ListPatch(it, ListText(it))).bullets == [""]
  {
  }

  /** `updateItem(patch)` on item `j` of section `i`: only that item changes. */
  function PatchItem(r: ResumeData, i: nat, j: nat, p: ItemPatch): (r': ResumeData)
    requires i < |r.sections| && j < |r.sections[i].items|
    requires PatchFits(KindOf(r.sections[i].items[j]), p)
    ensures |r'.sections| == |r.sections|
    ensures var s, s' := r.sections[i], r'.sections[i];
      && s'.id == s.id && s'.kind == s.kind && s'.title == s.title
      && |s'.items| == |s.items| && s'.items[j] == ApplyPatch(s.items[j], p)
      && forall k :: 0 <= k < |s.items| && k != j ==> s'.items[k] == s.items[k]
    ensures forall k :: 0 <= k < |r.sections| && k != i ==> r'.sections[k] == r.sections[k]
    ensures forall k :: Get(r', k) == Get(r, k)
    ensures WellTyped(r) ==> WellTyped(r')
  {
    var s := r.sections[i];
    var items := seq(|s.items|, k requires 0 <= k < |s.items| => if k == j then ApplyPatch(s.items[k], p) else s.items[k]);
    UpdateSection(r, i, s.(items := items))
  }

  /** The item card's remove button: item `j` of section `i` goes, the rest keep their order. */
  function RemoveItem(r: ResumeData, i: nat, j: int): (r': ResumeData)
    requires i < |r.sections|
    ensures |r'.sections| == |r.sections|
    ensures var s, s' := r.sections[i], r'.sections[i];
      && s'.id == s.id && s'.kind == s.kind && s'.title == s.title
      && (0 <= j < |s.items| ==> (|s'.items| == |s.items| - 1
        && (forall k :: 0 <= k < j ==> s'.items[k] == s.items[k])
        && (forall k :: j <= k < |s'.items| ==> s'.items[k] == s.items[k + 1])))
      && (!(0 <= j < |s.items|) ==> s'.items == s.items)
    ensures forall k :: 0 <= k < |r.sections| && k != i ==> r'.sections[k] == r.sections[k]
    ensures forall k :: Get(r', k) == Get(r, k)
    ensures WellTyped(r) ==> WellTyped(r')
  {
    var s := r.sections[i];
    var s' := s.(items := RemoveAt(s.items, j));
    assert SectionWellTyped(s) ==> SectionWellTyped(s') by {
      forall k | 0 <= k < |s'.items|
        ensures exists m :: 0 <= m < |s.items| && s'.items[k] == s.items[m]
      {
        RemoveAtSubset(s.items, j, k);
      }
    }
    UpdateSection(r, i, s')
  }

  /** Removing the item just added restores the resume. */
  lemma RemoveAddedItem(r: ResumeData, i: nat)
    requires i < |r.sections|
    ensures RemoveItem(AddItem(r, i), i, |r.sections[i].items|) == r
  {
    var s := r.sections[i];
    RemoveAtSplice(s.items, EmptyItem(s.kind), []);
    assert s.items + [EmptyItem(s.kind)] + [] == AddItem(r, i).sections[i].items;
    assert s.items + [] == s.items;
    assert RemoveItem(AddItem(r, i), i, |s.items|).sections == r.sections;
  }

  // ---------------------------------------------------------------------------
  // Upload

  const NoApiKey := "Please configure your API key first."
  const AutofillFailed := "Failed to autofill Resume."

  /**
   * `handleResumeAutofill`: with no key, an error and no call; otherwise the
   * extracted resume replaces the current one, or its error message is shown
   * (a generic one when the message is empty).
   */
  function AutofillOutcome(current: ResumeData, apiKey: string, extracted: Result<ResumeData, string>)
    : (r: (ResumeData, string))
    ensures apiKey == "" ==> r == (current, NoApiKey)
    ensures apiKey != "" && extracted.Ok? ==> r == (extracted.value, "")
    ensures apiKey != "" && extracted.Err? ==>
      (r.0 == current && r.1 != "" && (extracted.error != "" ==> r.1 == extracted.error))
  {
    if apiKey == "" then (current, NoApiKey)
    else match extracted
      case Ok(d) => (d, "")
      case Err(m) => (current, if m == "" then AutofillFailed else m)
  }
}
