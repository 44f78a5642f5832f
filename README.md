# Legislation document cleaner: the cleaning core

`cleaner.py` turns a Word document of consolidated legislation into a
cleaned copy. It drops paragraphs that are pure page furniture, tidies the
whitespace of the rest, and copies each remaining paragraph's alignment,
style and runs into a new document. This project models the three parts
that decide the output:

- `is_pure_artifact` (`cleaner.py:6-16`), in `artifacts.dfy`. These are the
  five anchored patterns: underscore rules, hyphen rules, the
  "Compilation No. … Compilation date: …" stamp, blank text, and the
  running footer of the Anti-Money Laundering and Counter-Terrorism
  Financing Act 2006. Each one is decided by a greedy left-to-right reading.
- `clean_text` (`cleaner.py:18-31`), in `text_cleaning.dfy`. It collapses
  runs of spaces and tabs, strips trailing whitespace, and rewrites any
  leading whitespace as spaces.
- The paragraph loop of `clean_docx` (`cleaner.py:45-83`), in `rebuild.dfy`,
  as an imperative method. A specification function says what document the
  loop builds.

`py_str.dfy` models the pieces of Python's `str` that these rely on:
`isspace`, `strip`, `lstrip`, `rstrip` and `' ' * n`. The `*_facts.dfy`
files hold the properties, and `text_cleaning_examples.dfy` holds worked
examples. `wrappers.dfy` holds an `Option` type.

Partners:

- Each pattern has a shape datatype (`Stamp`, `ActFooter`) or a rendering
  function (`RuleText`). A language lemma proves both directions: the
  reading accepts a text exactly when the text is the rendering of some
  well-formed shape.
- `clean_text` is tied to `Visible` (the text's non-whitespace characters),
  to its fixpoints (`IsCleanForm`) and to idempotence.
- The loop method is proved equal to `CleanedDocument`. Lemmas about that
  function describe which paragraphs survive and what each new paragraph
  carries.

The model follows what the code does, even where the program's own comments
promise more. The docstring of `clean_text` (`cleaner.py:19`) promises to
preserve "ALL numbering and structure", and the comment at `cleaner.py:26`
promises to preserve leading whitespace for indentation. But line 21 first
collapses every run of spaces and tabs to one space, so an indentation of
several spaces comes out as exactly one space. `LeadingBlankRun` and
`IndentedClauseExample` state this behaviour.

## Model

| member | source | states |
|---|---|---|
| Artifacts.RuleLanguage | cleaner.py:9-10 | `^c+$` without MULTILINE matches a text exactly when it is `c` repeated at least once, optionally followed by one final newline |
| Artifacts.StampLanguage | cleaner.py:11 | the stamp pattern matches a text exactly when the text is whitespace, then `Compilation No. `, digits, ` Compilation date: `, digits `/` digits `/` digits, then whitespace |
| Artifacts.StampAccepted | cleaner.py:11 | every text of stamp shape is accepted by the stamp reading |
| Artifacts.StampParsed | cleaner.py:11 | every text the stamp reading accepts splits into a well-formed stamp that renders back to the text |
| Artifacts.StampYearOf | cleaner.py:11 | reading the stamp's fixed part stops just after the second `/` and leaves the rest untouched |
| Artifacts.ActFooterLanguage | cleaner.py:13 | the footer pattern matches a text exactly when the text is the Act's title, then whitespace, digits and whitespace |
| Artifacts.ActFooterParsed | cleaner.py:13 | every text the footer reading accepts splits into a well-formed footer that renders back to the text |
| Artifacts.ActFooterAccepted | cleaner.py:13 | every well-formed footer is accepted |
| Artifacts.PageAccepted | cleaner.py:13 | after the title, whitespace, digits and whitespace are exactly consumed by `\s*\d*\s*$` |
| Artifacts.DigitRunOf | cleaner.py:11 | `\d+` read greedily takes exactly the digits before a non-digit |
| Artifacts.LStripAllSpace | cleaner.py:13 | a page part made only of whitespace leaves nothing after the `\s*` |
| ArtifactFacts.BlankIsArtifact | cleaner.py:12 | every whitespace-only text, the empty text included, is an artifact |
| ArtifactFacts.RuleIsArtifact | cleaner.py:9-10 | one or more underscores or hyphens, with or without a final newline, are an artifact |
| ArtifactFacts.UnderscoreArtifact | cleaner.py:8-16 | a text holding an underscore is an artifact only if it is an underscore rule |
| ArtifactFacts.NoUnderscoreInStamp | cleaner.py:11 | no text of stamp shape holds an underscore |
| ArtifactFacts.NoUnderscoreInFooter | cleaner.py:13 | no text of footer shape holds an underscore |
| ArtifactFacts.RuleChars | cleaner.py:9-10 | a rule holds only its character and possibly the final newline |
| ArtifactFacts.MixedRulesAreKept | cleaner.py:9-10 | `_-` and an indented `___` are not artifacts |
| ArtifactFacts.StampExample | cleaner.py:11 | `Compilation No. 12 Compilation date: 01/02/2020`, with any whitespace around it, is an artifact |
| ArtifactFacts.StampNumberAloneIsKept | cleaner.py:11 | `Compilation No. 12` without the date is not an artifact |
| ArtifactFacts.FooterExample | cleaner.py:13 | the Act's title followed by ` 12` is an artifact |
| ArtifactFacts.StampVisibleEdges | cleaner.py:11 | every stamp's visible text starts with `C` and ends with a digit |
| ArtifactFacts.TextBeforeStamp | cleaner.py:11 | text whose first visible character is not `C`, put before anything, gives a text that is not a stamp (`^` anchors) |
| ArtifactFacts.TextAfterStamp | cleaner.py:11 | text whose last visible character is not a digit, put after anything, gives a text that is not a stamp (`$` anchors) |
| PyStr.LStripSuffix | cleaner.py:28-29 | `lstrip` drops a whitespace prefix and keeps the rest |
| PyStr.RStripPrefix | cleaner.py:24 | `rstrip` drops a whitespace suffix and keeps the rest |
| PyStr.LStripKeepsEnd | cleaner.py:28-29 | `lstrip` keeps the last character of a text that ends in a visible character |
| PyStr.RStripKeepsStart | cleaner.py:24 | `rstrip` keeps the first character of a text that starts with a visible character |
| PyStr.StripSplit | cleaner.py:11 | a text is a whitespace prefix, its `strip`, and a whitespace suffix |
| PyStr.StripPadded | cleaner.py:11 | `strip` of whitespace + t + whitespace is t, when t starts and ends visibly |
| PyStr.RStripSpaces | cleaner.py:24 | `rstrip` undoes appending whitespace after a visible character |
| PyStr.LStripSpaces | cleaner.py:28-29 | `lstrip` undoes prepending whitespace before a visible character |
| PyStr.VisibleConcat | cleaner.py:18-31 | the visible characters of a concatenation are those of its parts, in order |
| PyStr.VisibleEmpty | cleaner.py:12 | a text has no visible character exactly when it is all whitespace |
| TextCleaning.CollapseBlanks | cleaner.py:21 | the collapse is no longer than its input, is empty only for empty input, and starts with a space exactly when the input starts with a space or tab |
| TextCleaning.CollapseShape | cleaner.py:21 | after the collapse there is no tab and no two adjacent spaces, the characters other than spaces and tabs are the input's in order, and every character is a space or comes from the input |
| TextCleaning.CollapseNoTab | cleaner.py:21 | the collapse leaves no tab |
| TextCleaning.CollapseSingleSpaces | cleaner.py:21 | the collapse leaves no two adjacent spaces |
| TextCleaning.CollapseNonBlank | cleaner.py:21 | the collapse keeps the characters other than spaces and tabs, in order |
| TextCleaning.CollapseFromSource | cleaner.py:21 | every character of the collapse is a space or a character of the input |
| TextCleaning.CleanText | cleaner.py:18-31 | `clean_text` is no longer than its input, has no tab, and does not end in whitespace |
| TextCleaning.Reindented | cleaner.py:27-29 | rewriting the leading whitespace as spaces keeps the length and the last character and adds no tab |
| TextCleaningFacts.CleanTextVisible | cleaner.py:18-31 | `clean_text` keeps every non-whitespace character in order and adds none |
| TextCleaningFacts.CleanTextEmpty | cleaner.py:18-31 | `clean_text` gives the empty text exactly for whitespace-only input |
| TextCleaningFacts.CleanTextSingleSpaces | cleaner.py:21-29 | after its indentation the cleaned text has no two adjacent spaces |
| TextCleaningFacts.IndentedText | cleaner.py:28-29 | the rewritten indentation has the same width, and the text after it is unchanged |
| TextCleaningFacts.LeadingBlankRun | cleaner.py:21-29 | a leading run of spaces and tabs before a visible character becomes exactly one space, and the rest is cleaned as if it stood alone |
| TextCleaningFacts.NoLeadingBlank | cleaner.py:27 | a text that does not start with a space or tab is only collapsed and right-stripped |
| TextCleaningFacts.CleanTextFixpoint | cleaner.py:18-31 | `clean_text` leaves a text unchanged exactly when the text has no tab, no two adjacent spaces and no trailing whitespace, and a leading space, if there is one, is followed by a visible character |
| TextCleaningFacts.CollapseLength | cleaner.py:21 | a tab-free text whose collapse has the same length is its own collapse |
| TextCleaningFacts.CollapseKeeps | cleaner.py:21 | the collapse leaves alone a text with no tab and no two adjacent spaces |
| TextCleaningFacts.CleanTextIdempotent | cleaner.py:18-31 | when the only whitespace is spaces and tabs, cleaning twice equals cleaning once |
| TextCleaningFacts.CollapsedCleanForm | cleaner.py:21-24 | with only spaces and tabs as whitespace, the collapsed and right-stripped text already has the cleaned shape |
| TextCleaningFacts.CollapseAfterWord | cleaner.py:21 | a word without spaces or tabs passes through the collapse unchanged |
| TextCleaningFacts.CollapseAfterRun | cleaner.py:21 | a whole run of spaces and tabs collapses to one space |
| TextCleaningFacts.BlankRunOf | cleaner.py:21 | `[ \t]+` takes exactly the leading run of spaces and tabs |
| TextCleaningExamples.IndentedClauseExample | cleaner.py:18-31 | `   (a)  Term   here  ` cleans to ` (a) Term here` |
| TextCleaningExamples.NotIdempotentExample | cleaner.py:18-31 | ` \nx` cleans to `  x`, which cleans further to ` x`: cleaning is not idempotent in general |
| Rebuild.AddRun | cleaner.py:70 | adding a run appends it and extends the paragraph's text by the run's text |
| Rebuild.CleanDocx | cleaner.py:45-83 | the paragraph loop builds exactly `CleanedDocument` of the source paragraphs |
| Rebuild.CleanedDocumentStep | cleaner.py:45-83 | each pass of the loop appends the rebuilt paragraph if it is kept, and nothing otherwise |
| Rebuild.NewParagraph | cleaner.py:58-81 | the new paragraph is `Rebuilt` of the source paragraph |
| Rebuild.CopyRuns | cleaner.py:69-78 | the new paragraph gets a copy of every source run, in order, and their text |
| Rebuild.CopyRun | cleaner.py:70-78 | a copied run has the source run's text, bold, italic and underline, and its font name and size only when set |
| RebuildFacts.KeepsIffNotArtifact | cleaner.py:49-57 | a paragraph is kept exactly when its text is not an artifact: the emptiness test of line 57 never drops one |
| RebuildFacts.KeptIndices | cleaner.py:45-51 | the kept positions are strictly increasing and are exactly the positions of non-artifact paragraphs |
| RebuildFacts.ArtifactCount | cleaner.py:49 | the number of artifact paragraphs is the number of paragraphs less the number of kept positions, and it is zero exactly when no paragraph is an artifact |
| RebuildFacts.CleanedDocumentIndices | cleaner.py:45-83 | the new document holds, in order, the rebuilt non-artifact paragraphs and nothing else |
| RebuildFacts.CleanedDocumentCount | cleaner.py:45-83 | the new document has one paragraph per source paragraph, less one per artifact |
| RebuildFacts.NothingDroppedIffNoArtifact | cleaner.py:45-83 | all paragraphs survive exactly when none is an artifact |
| RebuildFacts.CleanedDocumentAppend | cleaner.py:45-83 | the loop handles paragraphs independently: cleaning `d1 + d2` gives the cleaned `d1` followed by the cleaned `d2` |
| RebuildFacts.CleanedSingle | cleaner.py:45-83 | a one-paragraph document loses its paragraph exactly when it is an artifact |
| RebuildFacts.CopiedRunsText | cleaner.py:69-70 | the copied runs have the same text as the source runs |
| RebuildFacts.RunsCarriedOver | cleaner.py:66-78 | a paragraph with runs is rebuilt with the same number of runs and their raw text (not the cleaned text), with bold, italic and underline copied and the font name or size copied only when set |
| RebuildFacts.CleanedTextCarriedOver | cleaner.py:79-81 | a paragraph without runs is rebuilt with one unformatted run holding its cleaned text |
| RebuildFacts.ParagraphCarriedOver | cleaner.py:58-63 | every new paragraph keeps its source's alignment and style, has at least one run, and has the text of its runs |
| RebuildFacts.CleanedDocumentTexts | cleaner.py:45-83 | every paragraph of the new document has exactly the text of its runs |
| RebuildFacts.CleaningCanMakeArtifact | cleaner.py:49-57 | `___ ` is kept, yet its rebuilt text `___` is itself an artifact: the artifact test runs on the raw text only |

## Left out

- Reading and saving `.docx` files (`cleaner.py:36`, `cleaner.py:39`, `cleaner.py:86`) is I/O. Documents are plain sequences of paragraphs here. The new document starts empty, as `Document()` does.
- The success and error messages (`cleaner.py:87-90`) and the catch-all `except` are output only. The model has no failing steps to catch.
- `main` (`cleaner.py:92-102`) and the import check are not modelled: they only choose the file names.
- `prev_was_artifact` (`cleaner.py:42`, `cleaner.py:50`, `cleaner.py:83`) is written and never read, so it does not affect the output.
- `app.py`, `app copy.py`, `main.py` and `prompt.py` are not part of this model.
- python-docx objects are values here, not objects changed in place. A paragraph's text and its runs are independent fields, because in python-docx text inside a hyperlink is in the paragraph's text but in none of its runs.
- The `WD_UNDERLINE` line styles are kept as names. Font sizes are plain integers (EMU).
- A paragraph's style is the name of the style `paragraph.style` returns. For a paragraph with no style of its own, that is the source document's default paragraph style, which line 62 finds truthy and line 63 assigns explicitly. `None` stands only for a source document that has no default paragraph style. How python-docx looks a style up, or adds it, in the new document is not modelled.
- `IsDigit`: `\d` in a `str` pattern also matches the non-ASCII decimal digits of Unicode; the model accepts only `0`-`9`.
- Unicode: strings are sequences of code points, with no normalisation. `IsSpace` is the exact `str.isspace` set.
- `TextBeforeStamp` and `TextAfterStamp` state the stamp's anchoring only for prefixes whose first visible character is not `C` and for suffixes whose last visible character is not a digit. They do not cover every prefix or suffix that breaks the anchoring.
- `StampExample`: the example stamp is written as the concatenation of two literals.
- `CleanTextIdempotent`: idempotence is proved only for texts whose whitespace is spaces and tabs. `NotIdempotentExample` shows that it fails otherwise.
