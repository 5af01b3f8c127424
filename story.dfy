/**
  The content layout of `generate_pdf` (app.py): how a brief record becomes
  the flow of blocks ("story") handed to the document engine. Fonts, colours,
  spacer sizes and pagination are not modelled; a spacer is a size-less token.
*/
module Story {
  import opened Wrappers
  import opened PyStr

  // ---------------------------------------------------------------------------
  // Data
  // ---------------------------------------------------------------------------

  /**
    A field value of the brief: a dictionary of sub-fields, a list, or anything
    else, which the renderer only ever sees through `str(value)`.
  */
  datatype Value =
    | Str(text: string)
    | Dict(entries: seq<(string, string)>)
    | List(items: seq<string>)

  /** The brief, in its dictionary's iteration (insertion) order. */
  type Record = seq<(string, Value)>

  /** One element of the story. */
  datatype Block =
    | DocTitle(text: string)
    | Spacer
    | SectionHeader(text: string)
    | Content(text: string)
    | Footer(text: string)

  /** An entry of the section table: an icon and a title. */
  datatype Section = Section(icon: string, title: string)

  /**
    The thirteen known fields and their section headings, as an association
    list in the dictionary's order; the keys are distinct.
  */
  const SectionConfig: seq<(string, Section)> := [
    ("style", Section("\U{1F3A8}", "Style Musical")),
    ("bpm", Section("\U{23F1}\U{FE0F}", "Tempo")),
    ("key", Section("\U{1F3B9}", "Tonalit\U{E9}")),
    ("ambiance", Section("\U{1F30A}", "Ambiance")),
    ("structure", Section("\U{1F3D7}\U{FE0F}", "Structure")),
    ("instruments", Section("\U{1F3B8}", "Instruments")),
    ("drums_patterns", Section("\U{1F941}", "Patterns de Batterie")),
    ("presets_plugins", Section("\U{1F39B}\U{FE0F}", "Presets & Plugins")),
    ("mix_tips", Section("\U{1F39A}\U{FE0F}", "Conseils Mixage")),
    ("mastering_tips", Section("\U{2728}", "Conseils Mastering")),
    ("effects", Section("\U{1F300}", "Effets")),
    ("automation_tips", Section("\U{1F916}", "Automation")),
    ("arrangement_guide", Section("\U{1F4D0}", "Arrangement"))
  ]

  /** `key in table` and `table[key]` in one step: the entry of the first pair with that key. */
  function Lookup(table: seq<(string, Section)>, key: string): Option<Section> {
    if table == [] then None
    else if table[0].0 == key then Some(table[0].1)
    else Lookup(table[1..], key)
  }

  const MainTitle := "\U{1F3A7} MUSIC BRIEF GENERATOR"

  const FooterText :=
    "G\U{E9}n\U{E9}r\U{E9} par Music Brief Generator \U{2022} Brief professionnel pour production musicale"

  const Bullet: char := '\U{2022}'

  /** The heading text of a section: its icon, a space, its title. */
  function HeaderText(section: Section): string {
    section.icon + " " + section.title
  }

  // ---------------------------------------------------------------------------
  // Formatting of one line
  // ---------------------------------------------------------------------------

  /** A dictionary entry: `<b>Key Label:</b> value`, the key's underscores read as spaces. */
  function EntryLine(key: string, value: string): string {
    "<b>" + Title(Replace(key, "_", " ")) + ":</b> " + value
  }

  /** A bullet line. */
  function BulletLine(item: string): string {
    [Bullet, ' '] + item
  }

  /** The characters `lstrip('-•')` removes. */
  predicate IsMarker(c: char) {
    c == '-' || c == Bullet
  }

  /**
    One line of a text value: nothing for a blank line; for a line whose
    stripped form starts with `-` or `•`, a bullet line holding what follows
    the markers, stripped; otherwise the stripped line itself.
  */
  function TextLine(line: string): Option<string> {
    var t := Strip(line);
    if t == [] then None
    else if IsMarker(t[0]) then Some(BulletLine(Strip(LStripBy(t, IsMarker))))
    else Some(t)
  }

  // ---------------------------------------------------------------------------
  // The story, as functions of the record
  // ---------------------------------------------------------------------------

  /** A dictionary value: one line per entry, in entry order. */
  function EntryBlocks(entries: seq<(string, string)>): seq<Block> {
    if entries == [] then []
    else
      var last := entries[|entries| - 1];
      EntryBlocks(entries[..|entries| - 1]) + [Content(EntryLine(last.0, last.1))]
  }

  /** A list value: one bullet line per item, in order. */
  function ItemBlocks(items: seq<string>): seq<Block> {
    if items == [] then []
    else ItemBlocks(items[..|items| - 1]) + [Content(BulletLine(items[|items| - 1]))]
  }

  /** The non-blank lines among `lines`, in order. */
  function NonBlank(lines: seq<string>): seq<string> {
    if lines == [] then []
    else
      var last := lines[|lines| - 1];
      NonBlank(lines[..|lines| - 1]) + (if Strip(last) == [] then [] else [last])
  }

  /** What one line of a text value contributes: its formatted form, or nothing when blank. */
  function LineBlocks(line: string): seq<Block> {
    match TextLine(line)
    case Some(t) => [Content(t)]
    case None => []
  }

  /**
    The lines of a text value that has been split: each line formatted, the
    blank ones dropped, in order.
  */
  function TextBlocks(lines: seq<string>): seq<Block> {
    if lines == [] then []
    else TextBlocks(lines[..|lines| - 1]) + LineBlocks(lines[|lines| - 1])
  }

  /** Taking one more line adds what that line contributes. */
  lemma TextBlocksStep(lines: seq<string>, m: nat)
    requires m < |lines|
    ensures TextBlocks(lines[..m + 1]) == TextBlocks(lines[..m]) + LineBlocks(lines[m])
  {
    assert lines[..m + 1][..m] == lines[..m];
  }

  /** What a field value contributes under its header. */
  function ContentBlocks(value: Value): seq<Block> {
    match value
    case Dict(entries) => EntryBlocks(entries)
    case List(items) => ItemBlocks(items)
    case Str(text) => TextBlocks(Split(text, '\n'))
  }

  /** A known field's section: its header, a spacer, its content and a closing spacer. */
  function SectionOf(section: Section, content: seq<Block>): seq<Block> {
    [SectionHeader(HeaderText(section)), Spacer] + content + [Spacer]
  }

  /** Appending a section piece by piece gives the same story as appending it at once. */
  lemma AppendSectionPieces(story: seq<Block>, section: Section, content: seq<Block>)
    ensures story + [SectionHeader(HeaderText(section))] + [Spacer] + content + [Spacer]
            == story + SectionOf(section, content)
  {
  }

  /**
    What one field contributes: for a known key, its header, a spacer, its
    content and a closing spacer; for any other key, nothing.
  */
  function SectionBlocks(key: string, value: Value): seq<Block> {
    match Lookup(SectionConfig, key)
    case Some(section) => SectionOf(section, ContentBlocks(value))
    case None => []
  }

  /** The sections of the record, in the record's own order. */
  function Sections(data: Record): seq<Block> {
    if data == [] then []
    else
      var last := data[|data| - 1];
      Sections(data[..|data| - 1]) + SectionBlocks(last.0, last.1)
  }

  /** Taking one more field of the record adds that field's section. */
  lemma SectionsStep(data: Record, n: nat)
    requires n < |data|
    ensures Sections(data[..n + 1]) == Sections(data[..n]) + SectionBlocks(data[n].0, data[n].1)
  {
    assert data[..n + 1][..n] == data[..n];
  }

  /** The opening of every story: the title and two spacers. */
  const Opening := [DocTitle(MainTitle), Spacer, Spacer]

  /** The close of every story: a spacer and the footer. */
  const Closing := [Spacer, Footer(FooterText)]

  /** The whole story of a record. */
  function StoryOf(data: Record): seq<Block> {
    Opening + Sections(data) + Closing
  }
}
