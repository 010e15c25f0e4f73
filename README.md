# Tilted text detector: the span partition loop

This project models the core of a small PDF "tilted text detector". The application opens a PDF and walks its text structure in order: pages numbered from 1, then blocks, then the lines of each block that has lines, then the spans of each line. For every span it does three things:

- It strips the span's text with Python's `str.strip()`.
- It reads the span's direction vector, which defaults to `(1, 0)`.
- It appends the span to one of two lists. The span goes to `normal_words` when the vector is exactly `(1, 0)` or `(0, 1)`. Otherwise it goes to `tilted_words` as a `(page, text, direction)` triple.

The extracted text is `normal_words` joined with single spaces.

The files are:

- `py_strings.dfy` (module `PyStrings`) models the Python string built-ins the loop relies on:
  - `str.isspace` and `str.strip()`, with `lstrip`/`rstrip` as `TrimStart`/`TrimEnd`.
  - `" ".join`.
  - `str.split(" ")`, which serves only as the inverse that `Join` is checked against.
- `app.dfy` (module `App`) holds the document as nested datatypes, with the keys the loop reads: `blocks`, `lines` (optional), `spans`, `text` and `dir` (optional). It also holds:
  - The visiting order `DocVisits`.
  - The two lists as functions of that order (`NormalWords`, `TiltedWords`) and the transcript.
  - The loop itself as the method `ExtractWords`. It has four nested `for` loops that append to two local lists, exactly as the script does. It is proved to produce `NormalWords(doc)` and `TiltedWords(doc)`.
- `app_properties.dfy` (module `TiltProperties`) holds the lemmas about the two lists and the transcript:
  - Exactly one bucket per span.
  - Order and page numbers.
  - The default direction.
  - Lineless blocks.
  - Empty words.
  - The transcript's shape.
  - Worked examples.

The direction vector is `Dir(dx: real, dy: real)` and is only ever compared for equality. This mirrors the script, which performs exact tuple membership in `[(1, 0), (0, 1)]` with no tolerance. A direction a hair off horizontal is therefore reported as tilted (`NearlyHorizontalIsTilted`).

## Behaviour at the edges

- The direction comparison is exact, with no tolerance: `(1, 0.0001)` is tilted (`NearlyHorizontalIsTilted`).
- A span whose stripped text is empty is kept, so a whitespace-only span adds `""` to its list (`EmptyWordIff`, `EmptyTiltedTextIff`).
- Tilted text is not part of the transcript (`MixedDocument`).
- The transcript is empty when there are no normal words, and also when the only normal word is `""` (`TranscriptEmptyIff`).

## Model

| member | source | states |
|---|---|---|
| App.ExtractWords | app.py:10-25 | The nested page/block/line/span loop, starting from two empty lists and appending one entry per span, ends with `normal_words` equal to the stripped texts of the axis-aligned spans in visiting order and `tilted_words` equal to the (page, stripped text, direction) triples of all other spans in visiting order |
| App.PlaceIsExtend | app.py:19-25 | One round of the innermost loop appends the span to exactly one of the two lists, according to its direction |
| App.ScanPagesIsExtend | app.py:13-25 | After the first n pages, the two lists hold the entries of all spans of those pages, pages numbered from 1, in visiting order |
| App.NormalsAppend | app.py:25 | The normal list of two consecutive runs of visits is the first run's list followed by the second's (appending keeps order) |
| App.TiltedsAppend | app.py:23 | The same for the tilted list |
| PyStrings.TrimStartShape | app.py:19 | `lstrip` removes a whitespace-only prefix, and the rest is empty or starts with a non-whitespace character |
| PyStrings.TrimEndShape | app.py:19 | `rstrip` removes a whitespace-only suffix, and the rest is empty or ends with a non-whitespace character |
| PyStrings.StripShape | app.py:19 | The stripped text is the infix of the span text that follows its leading whitespace and is followed only by whitespace; it neither starts nor ends with whitespace |
| PyStrings.StripUnique | app.py:19 | Any split of a text into whitespace, a middle that neither starts nor ends with whitespace, and whitespace strips to that middle |
| PyStrings.StripIdempotent | app.py:19 | Stripping an already stripped text changes nothing |
| PyStrings.StripEmptyIff | app.py:19 | A text strips to the empty string exactly when it consists of whitespace only |
| PyStrings.Split | app.py:28 | Splitting on single spaces yields at least one piece, no piece holds a space, and joining the pieces with single spaces gives the text back |
| PyStrings.SplitJoin | app.py:28 | Joining with single spaces and then splitting on spaces gives the words back when no word holds a space |
| PyStrings.JoinEmptyIff | app.py:28 | The joined text is empty exactly when there are no words or a single empty word |
| PyStrings.JoinLength | app.py:28 | The joined text is the words' total length plus one separator between each consecutive pair |
| TiltProperties.SpanVisitsAt | app.py:18 | A line's spans are visited once each, in order, with the page number of that page |
| TiltProperties.DocVisitsCount | app.py:13-18 | The number of visits equals the number of spans in blocks that have lines |
| TiltProperties.PartitionSizes | app.py:22-25 | The two lists' lengths add up to the number of visits |
| TiltProperties.BucketSizes | app.py:16-25 | The lengths of the two lists add up to the number of spans in blocks that have lines |
| TiltProperties.Positions | app.py:22-25 | The positions selected for a list are visits whose direction puts them in that list |
| TiltProperties.PositionsSortedComplete | app.py:22-25 | Those positions are strictly increasing and include every visit that goes to that list |
| TiltProperties.NormalsAt | app.py:19-25 | The i-th normal word is the stripped text of the i-th axis-aligned visit |
| TiltProperties.TiltedsAt | app.py:19-23 | The i-th tilted entry is the (page, stripped text, direction) of the i-th tilted visit |
| TiltProperties.ExactlyOneBucket | app.py:22-25 | A visited span is in the normal list exactly when its direction is (1, 0) or (0, 1), and in the tilted list exactly when it is not |
| TiltProperties.NoTiltedIff | app.py:31-34 | There are no tilted entries (the "no tilted words" branch) exactly when every visited span is axis-aligned |
| TiltProperties.NoDirectionNoTilt | app.py:20-22 | When no span has a direction, the default (1, 0) applies: there are no tilted entries and one normal word per span |
| TiltProperties.EmptyWordIff | app.py:19-25 | A normal word is empty exactly when its span's text is whitespace only; such words are kept |
| TiltProperties.EmptyTiltedTextIff | app.py:19-23 | A tilted entry's text is empty exactly when its span's text is whitespace only; such entries are kept |
| TiltProperties.TranscriptEmptyIff | app.py:28 | The extracted text is empty exactly when there is no normal word or a single empty one |
| TiltProperties.TranscriptSplits | app.py:28 | When no normal word holds a space, splitting the extracted text on spaces gives the normal words back |
| TiltProperties.TranscriptLength | app.py:28 | The extracted text is the normal words plus one space between each consecutive pair |
| TiltProperties.NextPageAppends | app.py:13-25 | A further page's entries come after those of all earlier pages, numbered with that page's 1-based index |
| TiltProperties.LinesVisitsFrom | app.py:17-18 | Every visit from a block's lines carries the page number and a span of one of those lines |
| TiltProperties.BlocksVisitsFrom | app.py:15-18 | Every visit from a page's blocks carries the page number and a span that lies in a line of a block that has lines |
| TiltProperties.DocVisitsOnPage | app.py:13-18 | Every visit carries a page number between 1 and the page count, and its span lies on that page |
| TiltProperties.DocVisitsPageOrder | app.py:13 | Visits come in nondecreasing page order |
| TiltProperties.DocVisitsPages | app.py:13-18 | The two facts above together |
| TiltProperties.TiltedWordOrigin | app.py:13-23 | The i-th tilted entry comes from the i-th tilted visit: its page is the 1-based index of the page holding that span, and it records that span's stripped text and unchanged direction, which is tilted |
| TiltProperties.TiltedWordsInPageOrder | app.py:13-23 | Tilted entries are in nondecreasing page order |
| TiltProperties.KeepLinedVisits | app.py:16 | Dropping the blocks without lines leaves the visits of a page unchanged |
| TiltProperties.LinelessBlocksIgnored | app.py:15-16 | Blocks without a `lines` key contribute nothing: removing them leaves the visits and both lists unchanged |
| TiltProperties.MixedDocument | app.py:13-28 | On two pages, the script's lists come out as follows. Page 1 has an upright span, a 45-degree span and an image block. Page 2 has a vertical span and an upside-down span. The upright and vertical spans form the transcript in order. The other two are reported with pages 1 and 2 and their directions. Tilted text is not in the transcript. |
| TiltProperties.NearlyHorizontalIsTilted | app.py:22 | A direction of (1, 0.0001) is reported as tilted: there is no tolerance |

## Left out

- The Streamlit user interface and the report formatting (app.py:1-8 and app.py:27-35) are display only. Only the choice of the "No tilted words detected." branch is stated, by `NoTiltedIff`.
- Opening and parsing the PDF with PyMuPDF (`fitz.open` at app.py:9, `page.get_text("rawdict")` at app.py:14) happens in a foreign library. The document is a parameter: a sequence of pages, each with the keys the loop reads. The shape of the library's real output is not part of this model.
- A missing `blocks`, `spans` or `text` key would make the script raise `KeyError`. In the model's types those keys are always present. The key the script tests for, `lines`, and the key it reads with a default, `dir`, are `Option`s.
- Floating-point behaviour of the direction vector (NaN, signed zero, rounding) is outside the model. The vector is a pair of exact reals, compared only for equality, as the script does.
- Python strings can hold lone surrogates (U+D800 to U+DFFF); Dafny strings cannot, so text containing them is not modelled. Every other character is, and `str.strip()` does no normalisation.
- The script uses no orchestration of several extraction strategies, image-based recognition, spelling correction, merge policies or transcript diffing, so none is modelled.
- `TiltProperties.MixedDocument` keeps the span texts symbolic, so its transcript is stated in terms of their stripped forms, not literal strings.
