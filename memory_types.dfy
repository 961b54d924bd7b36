/** The records the memory system passes around: the header of a memory file, a
    parsed memory file, a row of the `memories` table and a row of the `changes`
    table. */
module MemoryTypes {
  import opened Wrappers
  import JsonList

  /** The validated header of a memory file (`MemoryFrontmatter`). */
  datatype Frontmatter = Frontmatter(
    title: string,
    date: string,
    categories: seq<string>,
    tags: Option<seq<string>>,
    author: Option<string>,
    summary: Option<string>,
    createdAt: string,
    updatedAt: string)

  /** A memory file read from disk: its path relative to the memory root, its
      header, the whole file text and the body after the header. */
  datatype ParsedMemory = ParsedMemory(
    filename: string,
    frontmatter: Frontmatter,
    content: string,
    rawContent: string)

  /** A row of the `memories` table. `categories` and `tags` hold JSON text. */
  datatype MemoryRecord = MemoryRecord(
    id: nat,
    filename: string,
    title: string,
    date: string,
    categories: string,
    tags: Option<string>,
    author: Option<string>,
    summary: Option<string>,
    content: string,
    createdAt: string,
    updatedAt: string)

  /** A row of the `changes` table: a copy of a `memories` row taken before it
      was overwritten. */
  datatype ChangeRecord = ChangeRecord(
    changeId: nat,
    memoryId: nat,
    filename: string,
    title: string,
    date: string,
    categories: string,
    tags: Option<string>,
    author: Option<string>,
    summary: Option<string>,
    content: string,
    createdAt: string,
    updatedAt: string,
    changedAt: string)

  /** A JavaScript string value in a condition: `undefined` and `""` are false. */
  predicate Truthy(s: Option<string>) { s.Some? && s.value != "" }

  /** `s || null` for an optional string. */
  function OrNull(s: Option<string>): (r: Option<string>)
    ensures r.Some? <==> Truthy(s)
    ensures r.Some? ==> r == s
  {
    if Truthy(s) then s else None
  }

  /** The value found under `categories` in a header, before it is checked: a
      YAML/JSON list of strings, or a single string. */
  datatype RawCategories = CategoryList(items: seq<string>) | CategoryText(text: string)

  /** A header as it arrives (from YAML or from a request body): every field may
      be missing. Values of other YAML types are not modelled. */
  datatype RawFrontmatter = RawFrontmatter(
    title: Option<string>,
    date: Option<string>,
    categories: Option<RawCategories>,
    tags: Option<seq<string>>,
    author: Option<string>,
    summary: Option<string>,
    createdAt: Option<string>,
    updatedAt: Option<string>)

  /** `!!fm.categories`: a list is always truthy, a string when it is not empty. */
  predicate CategoriesTruthy(c: Option<RawCategories>) {
    c.Some? && (c.value.CategoryText? ==> c.value.text != "")
  }

  /** Reads a raw header whose required fields are present and whose categories
      are a list as a `Frontmatter`. */
  function Checked(raw: RawFrontmatter): (fm: Frontmatter)
    requires raw.title.Some? && raw.date.Some? && raw.createdAt.Some? && raw.updatedAt.Some?
    requires raw.categories.Some? && raw.categories.value.CategoryList?
    ensures fm.title == raw.title.value && fm.date == raw.date.value
    ensures fm.categories == raw.categories.value.items
    ensures fm.tags == raw.tags && fm.author == raw.author && fm.summary == raw.summary
    ensures fm.createdAt == raw.createdAt.value && fm.updatedAt == raw.updatedAt.value
  {
    Frontmatter(raw.title.value, raw.date.value, raw.categories.value.items, raw.tags,
                raw.author, raw.summary, raw.createdAt.value, raw.updatedAt.value)
  }

  /** A checked header seen again as a raw one: every field present and the
      categories a list. */
  function Unchecked(fm: Frontmatter): (raw: RawFrontmatter)
    ensures raw.title.Some? && raw.date.Some? && raw.createdAt.Some? && raw.updatedAt.Some?
    ensures raw.categories.Some? && raw.categories.value.CategoryList?
  {
    RawFrontmatter(Some(fm.title), Some(fm.date), Some(CategoryList(fm.categories)), fm.tags,
                   fm.author, fm.summary, Some(fm.createdAt), Some(fm.updatedAt))
  }

  /** The `as MemoryFrontmatter` cast loses nothing: a header that has the
      required fields and a list of categories reads back as itself. */
  lemma CheckedKeepsAll(raw: RawFrontmatter)
    requires raw.title.Some? && raw.date.Some? && raw.createdAt.Some? && raw.updatedAt.Some?
    requires raw.categories.Some? && raw.categories.value.CategoryList?
    ensures Unchecked(Checked(raw)) == raw
  {
  }

  /** And every header is what the cast gives for some raw header. */
  lemma CheckedOnto(fm: Frontmatter)
    ensures Checked(Unchecked(fm)) == fm
  {
  }
}
