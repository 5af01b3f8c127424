/**
  `generate_pdf` (app.py) as the program runs it: the story is an accumulator
  that loops append to, field by field and line by line. Each method is proved
  to produce the story the functions of module Story describe.
*/
module Render {
  import opened PyStr
  import opened Story

  /**
    The story-building loop of `generate_pdf`: appends the title and two
    spacers, then each field's section in the record's order, then a spacer
    and the footer.
  */
  method BuildStory(data: Record) returns (story: seq<Block>)
    ensures story == StoryOf(data)
  {
    story := [];
    story := story + [DocTitle(MainTitle)];
    story := story + [Spacer];
    story := story + [Spacer];
    for n := 0 to |data|
      invariant story == Opening + Sections(data[..n])
    {
      SectionsStep(data, n);
      story := AppendSection(story, data[n].0, data[n].1);
    }
    assert data[..|data|] == data;
    story := story + [Spacer];
    story := story + [Footer(FooterText)];
  }

  /**
    One turn of the loop over the record: for a known key, appends its header,
    a spacer, its content (by the value's kind) and a closing spacer; for any
    other key, appends nothing.
  */
  method AppendSection(story: seq<Block>, key: string, value: Value) returns (out: seq<Block>)
    ensures out == story + SectionBlocks(key, value)
  {
    out := story;
    match Lookup(SectionConfig, key) {
      case Some(config) =>
        out := out + [SectionHeader(HeaderText(config))];
        out := out + [Spacer];
        out := AppendContent(out, value);
        out := out + [Spacer];
        AppendSectionPieces(story, config, ContentBlocks(value));
      case None =>
    }
  }

  /** The body of a known section, chosen by the kind of the field's value. */
  method AppendContent(story: seq<Block>, value: Value) returns (out: seq<Block>)
    ensures out == story + ContentBlocks(value)
  {
    match value {
      case Dict(entries) => out := AppendEntries(story, entries);
      case List(items) => out := AppendItems(story, items);
      case Str(text) =>
        var lines := Split(text, '\n');
        out := AppendLines(story, lines);
    }
  }

  /** Appends one line per dictionary entry, in entry order. */
  method AppendEntries(story: seq<Block>, entries: seq<(string, string)>) returns (out: seq<Block>)
    ensures out == story + EntryBlocks(entries)
  {
    out := story;
    for m := 0 to |entries|
      invariant out == story + EntryBlocks(entries[..m])
    {
      var (subKey, subValue) := entries[m];
      var formattedKey := Title(Replace(subKey, "_", " "));
      assert entries[..m + 1][..m] == entries[..m];
      out := out + [Content("<b>" + formattedKey + ":</b> " + subValue)];
    }
    assert entries[..|entries|] == entries;
  }

  /** Appends one bullet line per list item, in order. */
  method AppendItems(story: seq<Block>, items: seq<string>) returns (out: seq<Block>)
    ensures out == story + ItemBlocks(items)
  {
    out := story;
    for m := 0 to |items|
      invariant out == story + ItemBlocks(items[..m])
    {
      assert items[..m + 1][..m] == items[..m];
      out := out + [Content([Bullet, ' '] + items[m])];
    }
    assert items[..|items|] == items;
  }

  /** Appends one line per non-blank line of a text value that has been split, in order. */
  method AppendLines(story: seq<Block>, lines: seq<string>) returns (out: seq<Block>)
    ensures out == story + TextBlocks(lines)
  {
    out := story;
    for m := 0 to |lines|
      invariant out == story + TextBlocks(lines[..m])
    {
      TextBlocksStep(lines, m);
      var line := Strip(lines[m]);
      if line != [] {
        var content;
        if IsMarker(line[0]) {
          content := BulletLine(Strip(LStripBy(line, IsMarker)));
        } else {
          content := line;
        }
        out := out + [Content(content)];
      }
    }
    assert lines[..|lines|] == lines;
  }
}
