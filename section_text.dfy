/**
 * `sectionToText` of `src/types.ts`: the plain-text rendering of one section
 * that the scoring prompt embeds. A title line, then one block per item, then
 * a final newline. Block items (experience, education, custom) are their
 * non-empty lines joined by newlines, with nothing after the last line, so
 * consecutive blocks abut; a skills item is always exactly one line.
 */
module SectionText {
  import opened Wrappers
  import opened Strings
  import opened Types

  /** An optional field as `filter(Boolean)` sees it: absent and empty are both dropped. */
  function OrEmpty(o: Option<string>): string {
    o.GetOr("")
  }

  /** `edu.gpa && ("GPA: " + edu.gpa)`: falsy when the gpa is absent or empty. */
  function GpaLine(gpa: Option<string>): (r: string)
    ensures r != "" <==> gpa.Some? && gpa.value != ""
  {
    if gpa.Some? && gpa.value != "" then "GPA: " + gpa.value else ""
  }

  /** `[...lines, ""].filter(Boolean).join("\n")`. */
  function BlockText(lines: seq<string>): string {
    Join(NonEmpty(lines + [""]), "\n")
  }

  /** The lines a block item lists before its trailing `""`. */
  function ItemLines(it: Item): seq<string>
    requires !it.SkillsItem?
  {
    match it
    case ExperienceItem(role, company, location, duration, bullets) =>
      [role, duration, company, OrEmpty(location)] + bullets
    case EducationItem(degree, institution, location, duration, gpa) =>
      [degree, duration, institution, OrEmpty(location), GpaLine(gpa)]
    case CustomItem(labelText, value, bullets) =>
      [labelText, OrEmpty(value)] + bullets.GetOr([])
  }

  /** What one item appends to the section's text. */
  function ItemText(it: Item): string {
    match it
    case SkillsItem(category, items) => category + ": " + Join(items, ", ") + "\n"
    case _ => BlockText(ItemLines(it))
  }

  /** The whole section: it starts with its title line and ends with a newline. */
  function SectionText(s: Section): (r: string)
    ensures |r| >= |s.title| + 2
    ensures r[..|s.title| + 1] == s.title + "\n" && r[|r| - 1] == '\n'
  {
    s.title + "\n" + Concat(s.items, ItemText) + "\n"
  }

  /** `sectionToText`: the `+=` loop over the items. */
  method SectionToText(s: Section) returns (text: string)
    ensures text == SectionText(s)
  {
    var head := s.title + "\n";
    text := head;
    var i := 0;
    while i < |s.items|
      invariant 0 <= i <= |s.items|
      invariant text == head + Concat(s.items[..i], ItemText)
    {
      ConcatSnoc(s.items, i, ItemText);
      var itemText := ItemText(s.items[i]);
      AppendAssoc(head, Concat(s.items[..i], ItemText), itemText);
      text := text + itemText;
      i := i + 1;
    }
    assert s.items[..i] == s.items;
    text := text + "\n";
  }

  // ---------------------------------------------------------------------------
  // Properties

  /** The trailing `""` of every block is itself filtered out: it adds nothing. */
  lemma BlockTextDropsTrailing(lines: seq<string>)
    ensures BlockText(lines) == Join(NonEmpty(lines), "\n")
  {
    NonEmptyAppend(lines, [""]);
    assert NonEmpty([""]) == [];
    assert NonEmpty(lines) + [] == NonEmpty(lines);
  }

  /**
   * A block is empty when every line is, and otherwise ends with its last
   * non-empty line, with no newline after it.
   */
  lemma BlockEndsWithLastLine(lines: seq<string>)
    ensures NonEmpty(lines) == [] ==> BlockText(lines) == ""
    ensures NonEmpty(lines) != [] ==>
      var last := NonEmpty(lines)[|NonEmpty(lines)| - 1];
      |BlockText(lines)| >= |last| && BlockText(lines)[|BlockText(lines)| - |last|..] == last
  {
    BlockTextDropsTrailing(lines);
    if NonEmpty(lines) != [] {
      JoinEndsWithLast(NonEmpty(lines), "\n");
    }
  }

  /** A section renders its title line, each item's text in order, then a newline. */
  lemma SectionTextOfItems(s: Section, k: nat)
    requires k <= |s.items|
    ensures SectionText(s) == s.title + "\n" + Concat(s.items[..k], ItemText) + Concat(s.items[k..], ItemText) + "\n"
  {
    assert s.items == s.items[..k] + s.items[k..];
    ConcatAppend(s.items[..k], s.items[k..], ItemText);
  }

  /**
   * The education line "GPA: <gpa>" is emitted exactly when the gpa is present
   * and non-empty, and then it is the item's last line.
   */
  lemma EducationGpaLine(degree: string, institution: string, location: Option<string>, duration: string, gpa: Option<string>)
    ensures var e := EducationItem(degree, institution, location, duration, gpa);
      var base := NonEmpty([degree, duration, institution, OrEmpty(location)]);
      NonEmpty(ItemLines(e)) == base + (if gpa.Some? && gpa.value != "" then ["GPA: " + gpa.value] else [])
  {
    var e := EducationItem(degree, institution, location, duration, gpa);
    assert ItemLines(e) == [degree, duration, institution, OrEmpty(location)] + [GpaLine(gpa)];
    NonEmptyAppend([degree, duration, institution, OrEmpty(location)], [GpaLine(gpa)]);
  }

  /** A skills item is one line, even with an empty category or no items. */
  lemma SkillsOneLine(category: string, items: seq<string>)
    requires '\n' !in category
    requires forall k :: 0 <= k < |items| ==> '\n' !in items[k]
    ensures var t := ItemText(SkillsItem(category, items));
      |t| >= |category| + 3 && t[..|category| + 2] == category + ": "
      && t[|t| - 1] == '\n' && '\n' !in t[..|t| - 1]
  {
    var t := ItemText(SkillsItem(category, items));
    JoinAvoids(items, ", ", '\n');
    assert t[..|t| - 1] == category + ": " + Join(items, ", ");
  }

  /** A sample experience item with no location renders its four lines in order. */
  lemma SampleExperienceText()
    ensures ItemText(ExperienceItem("Engineer", "Acme", None, "2020-2023", ["Built X"]))
      == "Engineer\n2020-2023\nAcme\nBuilt X"
  {
    var kept := ["Engineer", "2020-2023", "Acme", "Built X"];
    SampleKeptLines();
    JoinCons("Engineer", kept[1..], "\n");
    JoinCons("2020-2023", kept[2..], "\n");
    JoinCons("Acme", kept[3..], "\n");
  }

  /** Only the absent location is filtered out of the sample experience item's lines. */
  lemma SampleKeptLines()
    ensures BlockText(ItemLines(ExperienceItem("Engineer", "Acme", None, "2020-2023", ["Built X"])))
      == Join(["Engineer", "2020-2023", "Acme", "Built X"], "\n")
  {
    var lines := ["Engineer", "2020-2023", "Acme", "", "Built X"];
    assert ItemLines(ExperienceItem("Engineer", "Acme", None, "2020-2023", ["Built X"])) == lines;
    BlockTextDropsTrailing(lines);
    NonEmptyAppend(["Engineer", "2020-2023", "Acme"], ["", "Built X"]);
    assert lines == ["Engineer", "2020-2023", "Acme"] + ["", "Built X"];
    NonEmptyKeepsAll(["Engineer", "2020-2023", "Acme"]);
    assert NonEmpty(["", "Built X"]) == ["Built X"];
    assert NonEmpty(lines) == ["Engineer", "2020-2023", "Acme"] + ["Built X"];
    assert ["Engineer", "2020-2023", "Acme"] + ["Built X"] == ["Engineer", "2020-2023", "Acme", "Built X"];
  }
}
