/**
  What the layout of `generate_pdf` (app.py) promises, proved about the
  functions of module Story: the frame of every story, one header per known
  field in the record's order, unknown fields ignored, and the lines each kind
  of value yields.
*/
module StoryProperties {
  import opened Wrappers
  import opened PyStr
  import opened Story

  // ---------------------------------------------------------------------------
  // Lines of one value
  // ---------------------------------------------------------------------------

  /** A dictionary value gives one `<b>Label:</b> value` line per entry, in entry order. */
  lemma {:induction false} EntryBlocksSpec(entries: seq<(string, string)>)
    ensures |EntryBlocks(entries)| == |entries|
    ensures forall i :: 0 <= i < |entries| ==>
              EntryBlocks(entries)[i] == Content(EntryLine(entries[i].0, entries[i].1))
    decreases |entries|
  {
    if entries != [] {
      EntryBlocksSpec(entries[..|entries| - 1]);
    }
  }

  /** A list value gives one bullet line per item, in order. */
  lemma {:induction false} ItemBlocksSpec(items: seq<string>)
    ensures |ItemBlocks(items)| == |items|
    ensures forall i :: 0 <= i < |items| ==> ItemBlocks(items)[i] == Content(BulletLine(items[i]))
    decreases |items|
  {
    if items != [] {
      ItemBlocksSpec(items[..|items| - 1]);
    }
  }

  /** A line is blank when nothing is left of it once stripped. */
  predicate Blank(line: string) {
    Strip(line) == []
  }

  /** The kept lines are exactly the non-blank ones. */
  lemma {:induction false} NonBlankSpec(lines: seq<string>)
    ensures forall line :: line in NonBlank(lines) <==> line in lines && !Blank(line)
    ensures |NonBlank(lines)| <= |lines|
    decreases |lines|
  {
    if lines != [] {
      NonBlankSpec(lines[..|lines| - 1]);
      assert lines == lines[..|lines| - 1] + [lines[|lines| - 1]];
    }
  }

  /** A line yields a formatted line exactly when it is not blank. */
  lemma TextLineBlank(line: string)
    ensures TextLine(line).None? <==> Blank(line)
  {
  }

  /**
    A text value yields one line per non-blank line, in order: as many
    blocks as non-blank lines, the `i`-th one formatted from the `i`-th
    non-blank line.
  */
  lemma {:induction false} TextBlocksSpec(lines: seq<string>)
    ensures |TextBlocks(lines)| == |NonBlank(lines)|
    ensures forall i :: 0 <= i < |NonBlank(lines)| ==>
              TextLine(NonBlank(lines)[i]).Some?
              && TextBlocks(lines)[i] == Content(TextLine(NonBlank(lines)[i]).value)
    decreases |lines|
  {
    if lines != [] {
      var init := lines[..|lines| - 1];
      var last := lines[|lines| - 1];
      TextBlocksSpec(init);
      TextLineBlank(last);
    }
  }

  /** A formatted line is left as it is when formatted again. */
  lemma TextLineFixed(line: string)
    requires TextLine(line).Some?
    ensures TextLine(TextLine(line).value) == TextLine(line)
  {
    var t := Strip(line);
    var _ := StripSlice(line);
    if IsMarker(t[0]) {
      var rest := Strip(LStripBy(t, IsMarker));
      var u := BulletLine(rest);
      var _ := StripSlice(LStripBy(t, IsMarker));
      if rest == [] {
        assert u == [Bullet, ' '];
        assert Strip(u) == [Bullet] by {
          assert LStripBy(u, IsSpace) == u;
          assert RStripBy(u, IsSpace) == RStripBy([Bullet], IsSpace);
        }
        assert LStripBy([Bullet], IsMarker) == [];
      } else {
        StripTrimmed(u);
        assert LStripBy(u, IsMarker) == [' '] + rest by {
          assert u[1..] == [' '] + rest;
        }
        assert LStripBy([' '] + rest, IsSpace) == rest by {
          assert ([' '] + rest)[1..] == rest;
        }
        StripTrimmed(rest);
      }
    } else {
      StripIdempotent(line);
    }
  }

  /**
    The label of a dictionary entry has one character per character of the
    key: every underscore becomes a space, no underscore is left, and every
    other character is kept up to its letter case.
  */
  lemma EntryLabel(key: string)
    ensures var shown := Title(Replace(key, "_", " "));
            |shown| == |key|
            && '_' !in shown
            && forall i :: 0 <= i < |key| ==>
                 if key[i] == '_' then shown[i] == ' ' else ToLower(shown[i]) == ToLower(key[i])
  {
    assert "_" == ['_'] && " " == [' '];
    ReplaceChar(key, '_', ' ');
    var spaced := Replace(key, "_", " ");
    var shown := Title(spaced);
    forall i | 0 <= i < |key|
      ensures shown[i] != '_'
      ensures if key[i] == '_' then shown[i] == ' ' else ToLower(shown[i]) == ToLower(key[i])
    {
      assert shown[i] == TitleChar(spaced[i], if i == 0 then false else IsCased(spaced[i - 1]));
    }
  }

  /** The number of content lines a value yields, counted from the value itself. */
  function ContentCount(value: Value): nat {
    match value
    case Dict(entries) => |entries|
    case List(items) => |items|
    case Str(text) => |NonBlank(Split(text, '\n'))|
  }

  /** Under its header a value yields only content lines, as many as `ContentCount` says. */
  lemma ContentBlocksSpec(value: Value)
    ensures |ContentBlocks(value)| == ContentCount(value)
    ensures forall i :: 0 <= i < |ContentBlocks(value)| ==> ContentBlocks(value)[i].Content?
  {
    match value
    case Dict(entries) => EntryBlocksSpec(entries);
    case List(items) => ItemBlocksSpec(items);
    case Str(text) => TextBlocksSpec(Split(text, '\n'));
  }

  /**
    One field's section: nothing for an unknown key; for a known key, its
    header first, then a spacer, then only content lines, then one closing
    spacer.
  */
  lemma SectionShape(key: string, value: Value)
    ensures Lookup(SectionConfig, key).None? ==> SectionBlocks(key, value) == []
    ensures Lookup(SectionConfig, key).Some? ==>
              var blocks := SectionBlocks(key, value);
              |blocks| == ContentCount(value) + 3
              && blocks[0] == SectionHeader(HeaderText(Lookup(SectionConfig, key).value))
              && blocks[1] == Spacer
              && (forall i :: 2 <= i < |blocks| - 1 ==> blocks[i].Content?)
              && blocks[|blocks| - 1] == Spacer
  {
    ContentBlocksSpec(value);
  }

  // ---------------------------------------------------------------------------
  // The section table
  // ---------------------------------------------------------------------------

  /** A lookup finds a key exactly when some pair has it, and then returns the first such pair's entry. */
  lemma {:induction false} LookupSpec(table: seq<(string, Section)>, key: string)
    ensures Lookup(table, key).Some? <==> exists i :: 0 <= i < |table| && table[i].0 == key
    ensures Lookup(table, key).Some? ==>
              exists i :: 0 <= i < |table| && table[i] == (key, Lookup(table, key).value)
                          && forall j :: 0 <= j < i ==> table[j].0 != key
    decreases |table|
  {
    if table != [] && table[0].0 != key {
      LookupSpec(table[1..], key);
      if Lookup(table, key).Some? {
        var i :| 0 <= i < |table| - 1 && table[1..][i] == (key, Lookup(table, key).value)
                 && forall j :: 0 <= j < i ==> table[1..][j].0 != key;
        assert table[i + 1] == (key, Lookup(table, key).value);
      }
      if exists i :: 0 <= i < |table| && table[i].0 == key {
        var i :| 0 <= i < |table| && table[i].0 == key;
        assert table[1..][i - 1].0 == key;
      }
    }
  }

  // ---------------------------------------------------------------------------
  // Sections of the whole record
  // ---------------------------------------------------------------------------

  /** The sections of two parts of a record, one after the other. */
  lemma {:induction false} SectionsAppend(first: Record, second: Record)
    ensures Sections(first + second) == Sections(first) + Sections(second)
    decreases |second|
  {
    if second != [] {
      var init := second[..|second| - 1];
      SectionsAppend(first, init);
      assert (first + second)[..|first + second| - 1] == first + init;
    } else {
      assert first + second == first;
    }
  }

  /** The header texts among `blocks`, in order. */
  function Headers(blocks: seq<Block>): seq<string> {
    if blocks == [] then []
    else
      var last := blocks[|blocks| - 1];
      Headers(blocks[..|blocks| - 1]) + (if last.SectionHeader? then [last.text] else [])
  }

  /** The headers of two runs of blocks, one after the other. */
  lemma {:induction false} HeadersAppend(first: seq<Block>, second: seq<Block>)
    ensures Headers(first + second) == Headers(first) + Headers(second)
    decreases |second|
  {
    if second != [] {
      var init := second[..|second| - 1];
      HeadersAppend(first, init);
      assert (first + second)[..|first + second| - 1] == first + init;
    } else {
      assert first + second == first;
    }
  }

  /** Runs of blocks none of which is a header have no headers. */
  lemma {:induction false} HeadersNone(blocks: seq<Block>)
    requires forall i :: 0 <= i < |blocks| ==> !blocks[i].SectionHeader?
    ensures Headers(blocks) == []
    decreases |blocks|
  {
    if blocks != [] {
      HeadersNone(blocks[..|blocks| - 1]);
    }
  }

  /** The heading of every known field of the record, in the record's order. */
  function KnownHeadings(data: Record): seq<string> {
    if data == [] then []
    else
      var last := data[|data| - 1];
      KnownHeadings(data[..|data| - 1])
      + match Lookup(SectionConfig, last.0)
        case Some(section) => [HeaderText(section)]
        case None => []
  }

  /** One field's section holds one header, its own, when the key is known, and none otherwise. */
  lemma SectionHeaders(key: string, value: Value)
    ensures Headers(SectionBlocks(key, value)) ==
              match Lookup(SectionConfig, key)
              case Some(section) => [HeaderText(section)]
              case None => []
  {
    match Lookup(SectionConfig, key)
    case Some(section) =>
      var content := ContentBlocks(value);
      ContentBlocksSpec(value);
      HeadersNone(content);
      HeadersAppend([SectionHeader(HeaderText(section)), Spacer], content);
      HeadersAppend([SectionHeader(HeaderText(section)), Spacer] + content, [Spacer]);
      assert Headers([SectionHeader(HeaderText(section)), Spacer]) == [HeaderText(section)] by {
        assert [SectionHeader(HeaderText(section)), Spacer][..1] == [SectionHeader(HeaderText(section))];
      }
    case None =>
  }

  /**
    The story's headers are the headings of the record's known fields, one
    each, in the order the record lists them (not the order of the table).
  */
  lemma {:induction false} SectionsHeaders(data: Record)
    ensures Headers(Sections(data)) == KnownHeadings(data)
    decreases |data|
  {
    if data != [] {
      var last := data[|data| - 1];
      SectionsHeaders(data[..|data| - 1]);
      HeadersAppend(Sections(data[..|data| - 1]), SectionBlocks(last.0, last.1));
      SectionHeaders(last.0, last.1);
    }
  }

  /** The same, for the whole story: the title, spacers and footer add no header. */
  lemma StoryHeaders(data: Record)
    ensures Headers(StoryOf(data)) == KnownHeadings(data)
  {
    SectionsHeaders(data);
    HeadersAppend(Opening, Sections(data));
    HeadersAppend(Opening + Sections(data), Closing);
    HeadersNone(Opening);
    HeadersNone(Closing);
  }

  /**
    Sections follow the record, not the table: a brief that lists `bpm`
    before `style` gets the tempo heading first, although the table lists
    the style first.
  */
  lemma RecordOrderExample()
    ensures KnownHeadings([("bpm", Str("140")), ("style", Str("trap"))])
            == ["\U{23F1}\U{FE0F} Tempo", "\U{1F3A8} Style Musical"]
  {
    var data: Record := [("bpm", Str("140")), ("style", Str("trap"))];
    assert data[..1] == [("bpm", Str("140"))];
    assert Lookup(SectionConfig, "bpm") == Some(Section("\U{23F1}\U{FE0F}", "Tempo"));
    assert Lookup(SectionConfig, "style") == Some(Section("\U{1F3A8}", "Style Musical"));
    assert data[..1][..0] == [];
    assert KnownHeadings(data[..1]) == [HeaderText(Section("\U{23F1}\U{FE0F}", "Tempo"))];
    assert HeaderText(Section("\U{23F1}\U{FE0F}", "Tempo")) == "\U{23F1}\U{FE0F} Tempo";
    assert HeaderText(Section("\U{1F3A8}", "Style Musical")) == "\U{1F3A8} Style Musical";
  }

  /** The fields of the record whose key is in the table, in order. */
  function KnownFields(data: Record): Record {
    if data == [] then []
    else
      var last := data[|data| - 1];
      KnownFields(data[..|data| - 1]) + (if Lookup(SectionConfig, last.0).Some? then [last] else [])
  }

  /** Dropping the fields with unknown keys does not change the sections. */
  lemma {:induction false} SectionsKnownFields(data: Record)
    ensures Sections(KnownFields(data)) == Sections(data)
    decreases |data|
  {
    if data != [] {
      var init := data[..|data| - 1];
      var last := data[|data| - 1];
      SectionsKnownFields(init);
      var blocks := SectionBlocks(last.0, last.1);
      assert Sections(data) == Sections(init) + blocks;
      if Lookup(SectionConfig, last.0).Some? {
        assert KnownFields(data) == KnownFields(init) + [last];
        SectionsAppend(KnownFields(init), [last]);
        assert [last][..0] == [];
        assert Sections([last]) == blocks;
      } else {
        assert blocks == [];
        assert KnownFields(data) == KnownFields(init);
        assert Sections(data) == Sections(init);
      }
    }
  }

  /** Dropping the fields with unknown keys does not change the story. */
  lemma UnknownFieldsIgnored(data: Record)
    ensures StoryOf(KnownFields(data)) == StoryOf(data)
  {
    SectionsKnownFields(data);
  }

  // ---------------------------------------------------------------------------
  // The frame of every story
  // ---------------------------------------------------------------------------

  /** A block that may appear between the opening and the close. */
  predicate InBody(block: Block) {
    block.SectionHeader? || block.Spacer? || block.Content?
  }

  /** Sections hold only headers, spacers and content lines. */
  lemma {:induction false} SectionsInBody(data: Record)
    ensures forall i :: 0 <= i < |Sections(data)| ==> InBody(Sections(data)[i])
    decreases |data|
  {
    if data != [] {
      var last := data[|data| - 1];
      SectionsInBody(data[..|data| - 1]);
      SectionShape(last.0, last.1);
    }
  }

  /**
    Every story starts with the title and two spacers and ends with a spacer
    and the footer; the title and the footer appear nowhere else.
  */
  lemma StoryFrame(data: Record)
    ensures var story := StoryOf(data);
            |story| == |Sections(data)| + 5
            && story[..3] == [DocTitle(MainTitle), Spacer, Spacer]
            && story[|story| - 2..] == [Spacer, Footer(FooterText)]
            && forall i :: 0 < i < |story| - 1 ==> !story[i].DocTitle? && !story[i].Footer?
  {
    var story := StoryOf(data);
    var body := Sections(data);
    SectionsInBody(data);
    forall i | 0 < i < |story| - 1
      ensures !story[i].DocTitle? && !story[i].Footer?
    {
      if 3 <= i < 3 + |body| {
        assert story[i] == body[i - 3];
      }
    }
  }
}
