# Music brief generator: extractor, PDF layout and request rules

A Dafny model of the core of `app.py`, a Flask service that asks a language
model for a "music brief" (a JSON record of thirteen production fields) and
renders such a brief as a PDF. Three parts of the file are modelled:

- `clean_gemini` (module `Extract`): deletes the code-fence markers from the
  model's reply, trims it, and keeps the match of `\{.*\}` (DOTALL), or `"{}"`.
  It is written as pure functions. Python's `str.replace`, `str.strip`,
  `str.split`, `str.lstrip` and `str.title` are in module `PyStr`.
- The story-building part of `generate_pdf`. Module `Story` gives the
  story as functions of the record. Module `Render` builds it the way the
  program does, appending to an accumulator in nested loops, and proves
  each method against the `Story` functions. Module `StoryProperties`
  proves the layout's promises about those functions: the frame, one
  header per known field in the record's order, unknown fields ignored, and
  the lines each kind of value yields. The story is a sequence of blocks
  (`DocTitle`, `Spacer`, `SectionHeader`, `Content`, `Footer`), and the
  record is a sequence of key/value pairs in the dictionary's insertion
  order.
- The decisions of the `/generate` and `/generate-pdf` handlers (module
  `Routes`): which status and body each request gets, and whether the model
  is called at all. The model's answer, whether a text parses as JSON, and
  whether the PDF engine accepts a story are parameters.

Where the written design of the project and the code differ, the model
follows the code:

- Sections appear in the record's own order (app.py:151). The design
  describes the fixed order of the section table instead.
  `StoryProperties.SectionsHeaders` states the order the code uses, and
  `StoryProperties.RecordOrderExample` shows a record whose headers come out
  in a different order from the table's.
- In a text value, only a line that starts with `-` or `•` becomes a bullet
  line (app.py:184-188). Every other non-blank line is emitted stripped and
  without a bullet. The design describes every line as a bullet line.
- A dictionary entry is emitted as `<b>Label:</b> value` (app.py:169), with
  the bold markup.
- `clean_gemini` falls back to `"{}"` whenever no `'}'` follows the first
  `'{'`, not only when the text has no `'{'` at all.

## Model

| member | source | states |
|---|---|---|
| `PyStr.ReplaceAbsent` | app.py:64-65 | replacing a pattern that does not occur leaves the text unchanged |
| `PyStr.RemoveFenceLeavesNone` | app.py:65 | after every fence marker (three backticks) is deleted, left to right and without overlaps, no fence marker is left, even where the deletion joins backticks |
| `PyStr.ReplaceChar` | app.py:167 | replacing `_` by a space keeps the length; each position changes exactly when it held `_` |
| `PyStr.LStripBySpec` | app.py:185 | `lstrip(chars)` returns a suffix of its input; every dropped character is in the set, and the first kept one is not |
| `PyStr.RStripBySpec` | app.py:66 | the right strip returns a prefix; every dropped character is whitespace, and the last kept one is not |
| `PyStr.StripSlice` | app.py:66 | `strip()` is the slice left after removing whitespace at both ends; it neither starts nor ends with whitespace, and it is empty exactly when the text is all whitespace |
| `PyStr.StripContains` | app.py:66 | whatever occurs in the stripped text occurs in the original |
| `PyStr.StripTrimmed` | app.py:66 | a text with no whitespace at either end is its own strip |
| `PyStr.StripIdempotent` | app.py:185 | stripping twice is stripping once |
| `PyStr.Split` | app.py:180 | `split('\n')` never returns an empty list |
| `PyStr.SplitPiecesFree` | app.py:180 | no piece of a split holds the separator |
| `PyStr.JoinSplit` | app.py:180 | joining the pieces with the separator gives the text back |
| `PyStr.SplitNone` | app.py:180 | a text without the separator splits into itself |
| `PyStr.SplitCons` | app.py:180 | a separator-free piece followed by a separator is split off as one piece |
| `PyStr.SplitJoin` | app.py:180 | splitting undoes joining when no piece holds the separator |
| `PyStr.TitleAfter` | app.py:167 | title case keeps the length; a letter is upper case after a non-letter and lower case after a letter, and other characters are kept |
| `PyStr.TitleCharStable` | app.py:167 | title-casing one character keeps it a letter or a non-letter, and doing it twice changes nothing |
| `PyStr.TitleIdempotent` | app.py:167 | title-casing twice is title-casing once |
| `Extract.IndexOf` | app.py:67 | the position of the first `c`, or the length when there is none |
| `Extract.LastIndexOf` | app.py:67 | the position of the last `c`, or -1 when there is none |
| `Extract.ObjectSpanExists` | app.py:67-68 | the reference span exists exactly when some `'{'` has a `'}'` after it |
| `Extract.ClosingFrom` | app.py:67 | greedy `.*\}` backtracking from the end stops at the last `'}'` at or before the start point, after the `'{'`, or reports that there is none |
| `Extract.SearchFromNone` | app.py:67 | with no `'}'` from a position on, the search from there finds nothing |
| `Extract.SearchFromSpan` | app.py:67 | the left-to-right search from any start up to the first `'{'` finds the reference span |
| `Extract.Search` | app.py:67 | `re.search(r'\{.*\}', s, re.DOTALL)` returns the text from the first `'{'` through the last `'}'`, if the first comes before the last |
| `Extract.Unfenced` | app.py:64-66 | once both markers are deleted and the text is stripped, no fence marker is left |
| `Extract.MatchOrEmpty` | app.py:67-70 | the match or `"{}"` always starts with `'{'` and ends with a different `'}'`; on fence-free text it is fence-free |
| `Extract.CleanGemini` | app.py:63-70 | `clean_gemini` always returns text that starts with `'{'`, ends with `'}'` and holds no fence marker |
| `Extract.SpanHasNoFence` | app.py:67-69 | the matched span of fence-free text is fence-free |
| `Extract.MatchOrEmptySpan` | app.py:67-70 | the match is exactly the text from its first `'{'` through its last `'}'` when some `'{'` has a `'}'` after it, otherwise `"{}"` |
| `Extract.CleanGeminiSpan` | app.py:63-70 | with S the fence-free, stripped text, the result is S from its first `'{'` through its last `'}'` (a contiguous part of S, greedy, not brace-balanced), or `"{}"` when no `'{'` in S has a `'}'` after it |
| `Extract.UnfencedFixed` | app.py:64-66 | fence-free text that starts with `'{'` and ends with `'}'` is unchanged by marker deletion and stripping |
| `Extract.MatchOrEmptyFixed` | app.py:67-69 | text that starts with `'{'` and ends with `'}'` is its own match |
| `Extract.CleanGeminiIdempotent` | app.py:63-70 | cleaning a cleaned text changes nothing |
| `Story.TextBlocksStep` | app.py:181-189 | one more line of a text value adds exactly what that line contributes |
| `Story.AppendSectionPieces` | app.py:156-161 | appending header, spacer, content and spacer one by one gives the story plus that section |
| `Story.SectionsStep` | app.py:151-191 | one more field of the record adds exactly that field's section |
| `Render.BuildStory` | app.py:140-206 | the story built by the loops equals the title, two spacers, each field's section in record order, a spacer and the footer |
| `Render.AppendSection` | app.py:152-191 | one turn of the field loop appends the field's section: header, spacer, content, spacer for a key in the table, and nothing for any other key |
| `Render.AppendContent` | app.py:164-189 | the content appended under a header is chosen by the kind of value: dictionary, list or text |
| `Render.AppendEntries` | app.py:164-172 | the entry loop appends one `<b>Label:</b> value` line per entry, in entry order |
| `Render.AppendItems` | app.py:173-177 | the item loop appends one bullet line per item, in order |
| `Render.AppendLines` | app.py:178-189 | the line loop appends one formatted line per non-blank line, in order |
| `StoryProperties.EntryBlocksSpec` | app.py:164-172 | a dictionary value yields exactly one line per entry; the `i`-th is `<b>` + title(key with `_` read as space) + `:</b> ` + value |
| `StoryProperties.ItemBlocksSpec` | app.py:173-177 | a list value yields exactly one line `• item` per item, in order |
| `StoryProperties.NonBlankSpec` | app.py:182 | the kept lines are exactly the lines that are not blank after strip |
| `StoryProperties.TextLineBlank` | app.py:182 | a line yields output exactly when it is not blank after strip |
| `StoryProperties.TextBlocksSpec` | app.py:178-189 | a text value yields as many lines as it has non-blank lines; the `i`-th is the formatted `i`-th non-blank line |
| `StoryProperties.TextLineFixed` | app.py:184-188 | a formatted line, bullet or plain, is unchanged when formatted again |
| `StoryProperties.EntryLabel` | app.py:167 | an entry label has one character per key character; every `_` becomes a space, no `_` is left, and every other character is kept up to letter case |
| `StoryProperties.ContentBlocksSpec` | app.py:164-189 | under its header a value yields only content lines: one per entry, one per item, or one per non-blank line |
| `StoryProperties.SectionShape` | app.py:152-161 | an unknown key yields nothing; a known key yields its header, a spacer, only content lines, then exactly one closing spacer |
| `StoryProperties.LookupSpec` | app.py:152-153 | the lookup finds a key exactly when the table has it, and returns the entry paired with its first occurrence |
| `StoryProperties.SectionsAppend` | app.py:151 | the sections of two parts of a record are the first part's followed by the second's |
| `StoryProperties.HeadersAppend` | app.py:151-160 | the headers of two runs of blocks are the first run's followed by the second's |
| `StoryProperties.HeadersNone` | app.py:164-189 | runs of blocks with no header contribute no header text |
| `StoryProperties.SectionHeaders` | app.py:152-160 | a field contributes exactly one header, its own heading `icon + " " + title`, when its key is known, and none otherwise |
| `StoryProperties.SectionsHeaders` | app.py:151-160 | the headers of the sections are the headings of the record's known fields, one each, in the record's order |
| `StoryProperties.StoryHeaders` | app.py:140-206 | the same holds for the whole story, since title, spacers and footer add no header |
| `StoryProperties.RecordOrderExample` | app.py:151 | a record listing `bpm` before `style` gets the Tempo heading before the Style heading, against the table's order |
| `StoryProperties.SectionsKnownFields` | app.py:152 | dropping the fields with unknown keys leaves the sections unchanged |
| `StoryProperties.UnknownFieldsIgnored` | app.py:151-152 | dropping the fields with unknown keys leaves the whole story unchanged |
| `StoryProperties.SectionsInBody` | app.py:151-191 | sections hold only headers, spacers and content lines |
| `StoryProperties.StoryFrame` | app.py:143-148 | every story has five blocks more than its sections: it starts with the title and two spacers and ends with a spacer and the footer, and the title and footer appear nowhere else |
| `Routes.Reply` | app.py:238-251 | upstream 403 gives 403 forbidden; any other status but 200 passes through with the upstream body; 200 comes out exactly when the answer is 200, has a candidate text and the cleaned text parses, and the body is then the cleaned text; every other case is 500 |
| `Routes.Generate` | app.py:225-236 | the model is called exactly when the idea is present and non-empty, with the idea after its label; otherwise the answer is 400 |
| `Routes.GenerateBrief` | app.py:245-248 | a successful brief starts with `'{'`, ends with `'}'`, and is unchanged by cleaning it again |
| `Routes.GenerateStatus` | app.py:228-251 | `/generate` answers 200, 400, 403, 500 or the upstream status passed on |
| `Routes.GeneratePdfRoute` | app.py:258-275 | no data or an empty record gives 400 and only then; otherwise the PDF of the record's story when the engine accepts it, and 500 when it fails |

## Left out

- Flask routing, `request.json`, `jsonify`, `send_file`, CORS, dotenv and the `/` and `/test-api` routes: framework I/O and a network probe with no logic of their own.
- The HTTP call to the language model: its outcome is the `Routes.Upstream` parameter (unreachable, or status, body text and first candidate text).
- `json.loads` and the `candidates[0].content.parts[0].text` lookup: they are library parsing. The model sees a `loads` predicate and an optional candidate text. `jsonify(parsed)` re-serialises the parsed object, and the model returns the cleaned text in its place.
- Routes.Reply: error messages are tags (`Forbidden`, `UpstreamError(status, body)`, `Internal`), not the French message strings or exception texts.
- Routes.Generate: the idea is a string or absent. A non-string idea, a request body that is not a JSON object, and the crash when the body is missing are not modelled.
- Routes.GeneratePdfRoute: the record is a list of fields or absent. A JSON body that is not an object is not modelled, and an engine failure is the `builds` parameter returning false.
- The system prompt text and the payload shape: constant data. Only the user part, the idea after its label, is modelled.
- ReportLab styling, spacer sizes, pagination, `BytesIO` and the interpretation of the markup inside `Paragraph`. A spacer is a size-less block and a paragraph is its text.
- PyStr.TitleAfter: only ASCII letters are treated as cased. Python's `str.title()` also cases other Unicode letters, for example `é`.
- Story.Value: a scalar field value is kept as the text `str(value)` produces. Dictionary sub-values and list items are kept as their `str` form as well.
- The section table is an association list looked up by key (`Story.Lookup`). Its keys are distinct, so it behaves like the dictionary; distinctness is not proved.
