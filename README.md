# StoryTellingAI: verified model of the story request and the PDF text flow

StoryTellingAI is a console program (`main.py`). It asks for a story concept, a title or a genre. It has a local language model write the story and can save the story as a Word or PDF file. This project models the parts of `main.py` that make decisions of their own:

- **The story request** (`StoryTellerAI.get_user_preferences`). The concept answer is stripped. The title is asked for only when there is no concept. When neither is given, the genre menu is shown and the concept becomes "A story in <genre> genre". The genre number is read with Python's indexing, so 0 and negative numbers count from the end of the list. A number outside the list raises `IndexError`. Module `Preferences`, file `preferences.dfy`.
- **The prompt input** (`generate_story`). `input_type` is "concept" exactly when a concept is set, and `input_value` is the matching field. Also in `Preferences`.
- **The PDF text flow** (`StoryTellerAI.save_to_pdf`). The story is cut into source lines with `splitlines()`. The words of each line (`split()`) are packed greedily into output lines. An output line is no wider than the page width less the margins unless it holds a single word that is wider on its own; every run of two or more words that starts a line fits. After each source line, a new page is started once the text cursor is below the 50-point bottom margin. Module `PdfLayout`, file `pdf_layout.dfy`. `SaveToPdf` is the loop itself, as a method over local state. It returns the lines drawn on each page instead of drawing them, and it is proved equal to the functional specification `Layout`.
- **Python's string operations** that the above rely on: `str.isspace`, `str.split()`, `str.splitlines()`, `str.strip()` and `' '.join`. Module `Text`, file `text.dfy`. Whitespace is the set of the 29 characters for which `str.isspace()` holds. Line boundaries are those of `str.splitlines()`, where "\r\n" counts as one boundary.

The properties of the wrap are proved in `wrap_props.dfy`, those of the pagination in `page_props.dfy` and those of the whole layout in `layout_props.dfy`.

The font metric `c.stringWidth(..., "Helvetica", 12)` is an uninterpreted parameter `width: string -> real`. The page geometry is a record of reals. For A4 the values are ReportLab's 595.2755905511812 x 841.8897637795277 points:

- width limit `A4[0] - 100`;
- first text line at `A4[1] - 100`;
- later pages starting at `A4[1] - 50`;
- leading 14;
- bottom margin 50.

The model keeps two behaviours of the source exactly as written:

- A word wider than the page on its own, when it is the first word of a source line, is preceded by an empty output line (`WrapLineEmpty`).
- The bottom margin is checked only after a whole source line has been drawn. A long paragraph therefore runs past the bottom margin before the page ends. When the lines of one page go past the 53rd (the 57th on later pages), the rest are placed below the bottom edge of the paper (y < 0) and fall off the page. The model records which lines belong to each page's text object, so `LayoutWords` is a statement about the content drawn, not about what is visible.

The final `c.drawText(text)` draws the last page. That page is empty when the last source line itself ended a page.

## Model

| member | source | states |
|---|---|---|
| PdfLayout.SaveToPdf | main.py:109-136 | The pages drawn are `Layout(width, g, story)`: the story's source lines are wrapped and paginated, and the final text object is the last page. |
| PdfLayout.Layout | main.py:109-136 | The lines drawn on each page for a story. There is at least one page, the one of the final `drawText`, and at most one page more than the story has source lines, because a page ends only after a source line. |
| PdfLayout.PaginateFrom | main.py:126-133 | The pages from a given block on. There is always a last page, and at most one page more than blocks left to place. |
| PdfLayout.Paginate | main.py:110-136 | The pages of a whole sequence of blocks: at least one, and at most one more than there are blocks. |
| PdfLayout.GroupFrom | main.py:113-124 | The word groups of the greedy packing from word j on. It emits a line whenever a word is left or the line being filled holds one. |
| PdfLayout.WrapSourceLine | main.py:112-124 | The lines appended for one source line are exactly `WrapLine` of it. The cursor drops by one leading per appended line. |
| LayoutProps.LayoutWords | main.py:109-136 | The words on all pages, read in order, are exactly the words of the story. No word is lost, repeated or reordered. |
| LayoutProps.LayoutPages | main.py:109-136 | The pages are whole wrapped source lines. The pages read in order give all of them in order, and the pages satisfy `WellPaged` from the first page's top. |
| LayoutProps.WrapAllWords | main.py:110-124 | Wrapping every source line keeps the words of all the lines, in order. |
| LayoutProps.PageLinesFlatten | main.py:126-136 | The lines of all pages, read in order, are the lines of all blocks, read in order. |
| WrapProps.GroupFromWords | main.py:113-124 | The output lines of the greedy packing, read in order, hold the words of the line being filled and then the remaining words, each exactly once. |
| WrapProps.GroupFromStart | main.py:113-124 | When the line being filled holds words, the first output line starts with them. |
| WrapProps.GroupFromEmpty | main.py:113-124 | The packing emits no line exactly when the line being filled is empty and no word is left. |
| WrapProps.GroupFromFits | main.py:115-120 | Every output line holds at most one word or is not wider than the limit. |
| WrapProps.GroupFromNonEmpty | main.py:115-124 | Every output line after the first holds a word. The first one holds a word too when the line being filled did. |
| WrapProps.GroupFromGreedy | main.py:115-120 | Every output line but the last was closed because the next line's first word made it wider than the limit. |
| WrapProps.GreedyCons | main.py:117-120 | A line closed by an overflowing word, followed by a greedy wrap that starts with that word, is a greedy wrap. |
| WrapProps.JoinEmpty | main.py:117-124 | Joining words with spaces gives the empty string exactly when there are no words. |
| WrapProps.WordsOfJoins | main.py:117-124 | Splitting the joined output lines gives back their words. |
| WrapProps.WrapLineWords | main.py:112-124 | The words of the output lines of a source line are exactly `line.split()`, in order. |
| WrapProps.WrapLineGroup | main.py:112-124 | The words of output line k are the words packed into line k. |
| WrapProps.WrapLineFits | main.py:115-120 | Every output line is not wider than the limit, or holds at most one word. |
| WrapProps.PrefixesFitGrow | main.py:115-117 | A word is appended to a line only after the line with it was measured, so every run of two or more words that starts the line still fits. |
| WrapProps.GroupFromPrefixesFit | main.py:113-124 | In every line of the packing, every run of two or more words that starts the line is not wider than the limit. |
| WrapProps.WrapLinePrefixesFit | main.py:112-124 | In every output line, the first m words, for any m of at least 2, are not wider than the limit. Only a line's first word, alone, can overflow. |
| WrapProps.WrapLineEmpty | main.py:114-120 | Output line k is empty exactly when k is 0 and the first word alone is wider than the limit. |
| WrapProps.WrapLineBlank | main.py:112-124 | A source line draws no line exactly when it is all whitespace. |
| WrapProps.WrapLineGreedy | main.py:115-120 | No output line could have taken the first word of the next one. |
| PageProps.PaginateFromBlocks | main.py:110-133 | The pages, read in order, hold the blocks already on the current page and then the blocks still to place. |
| PageProps.PaginateBlocks | main.py:110-136 | Pagination keeps every wrapped source line once, in order, and never splits one across pages. |
| PageProps.SettledGrow | main.py:126-127 | A block that leaves the cursor at or above the bottom margin keeps the page open. |
| PageProps.PaginateFromWellPaged | main.py:126-133 | From an open page with cursor y, every later page but the last is ended by exactly its last block. |
| PageProps.PaginateWellPaged | main.py:103-133 | The first page starts at `firstTop` and every later one at `nextTop`. A page ends after the source line that takes the cursor below the bottom margin, and only then. Every page but the last holds a source line, which may be blank when a page's top is already below the margin. On A4 every ended page holds at least 50 output lines (`A4Capacity`). |
| PageProps.CursorLines | main.py:103-124 | The cursor on a page is its top less the descent for the number of lines drawn on it. |
| PageProps.DescentAdd | main.py:103-124 | The descent for a + b lines is the descent for a lines plus the descent for b lines. |
| PageProps.DescentLines | main.py:106 | n lines lower the cursor by n times the leading. |
| PageProps.A4Capacity | main.py:96-133 | On A4, a page that was ended holds at least 50 lines if it is the first page and at least 53 otherwise. |
| PdfLayout.PlaceBlock | main.py:126-133 | After a source line is drawn, the page either ends (cursor below the bottom margin) or continues. The remaining pagination is unchanged. |
| Text.Split | main.py:112 | Every item of `s.split()` is a word: non-empty and free of whitespace. |
| Text.SplitEmpty | main.py:112 | `s.split()` is empty exactly when `s` is all whitespace. |
| Text.SplitJoin | main.py:117-124 | Splitting `' '.join(words)` gives back the words. |
| Text.SplitSeparated | main.py:112 | Splitting at a whitespace character splits the two sides independently. |
| Text.SplitWord | main.py:112 | A single word splits to itself. |
| Text.WordsOfAppend | main.py:110-112 | The words of two runs of strings are the words of the first run, then those of the second. |
| Text.SplitLines | main.py:109 | The empty string has no lines. No line of `s.splitlines()` contains a line boundary. |
| Text.SplitLinesFinalBreak | main.py:109 | A line boundary at the very end of a string starts no further line: `"a\n".splitlines()` is `["a"]`. |
| Text.SplitLinesOne | main.py:109 | A non-empty string without a line boundary is a single line. |
| Text.SplitLinesSeparated | main.py:109 | A boundary after a run without one ends exactly that line, and the lines of the rest follow. "\r\n" is one boundary, and a lone "\r" is one when no "\n" follows it. |
| Text.SplitAtLineBreak | main.py:109 | Splitting at a line boundary, "\r\n" included, splits the two sides independently. |
| Text.SplitLinesWords | main.py:109-112 | The words of the lines of `s.splitlines()` are exactly the words of `s`, in order. |
| Text.LineBreakIsSpace | main.py:109-112 | Every line boundary is whitespace. |
| Text.JoinAppend | main.py:117-124 | Joining two non-empty runs of words puts exactly one space between them. |
| Text.Strip | main.py:67-68 | `s.strip()` is the part of `s` that starts right after its leading whitespace. |
| Text.Join | main.py:117-124 | `' '.join(words)` starts with the first word, followed by a space when there is a second word. |
| Text.StripInfix | main.py:67-68 | `s.strip()` is a contiguous part of `s`, starting after its leading whitespace. |
| Text.StripRemovesSpace | main.py:67-68 | What `s.strip()` removes on either side is whitespace. |
| Text.StripEnds | main.py:67-68 | A non-empty `s.strip()` neither starts nor ends with whitespace. |
| Text.StripEmpty | main.py:67-70 | `s.strip()` is empty exactly when `s` is all whitespace. |
| Text.StripIdempotent | main.py:67-68 | Stripping twice is stripping once. |
| Preferences.GetUserPreferences | main.py:66-85 | The paragraph count and language pass through. Exactly one of concept and title is non-empty. `IndexError` happens exactly when both answers are blank and the genre number is outside -41..42. |
| Preferences.GenreConcept | main.py:75 | The concept for a genre is "A story in ", then the genre, then " genre". |
| Preferences.GenreAt | main.py:74-75 | Python indexing of the 42 genres succeeds exactly for indices -42..41, and yields a listed genre. |
| Preferences.ConceptGiven | main.py:67-85 | A non-blank concept is kept, stripped. The title is then empty. The title and genre answers do not matter. |
| Preferences.TitleGiven | main.py:67-85 | Without a concept, a non-blank title is kept, stripped. The concept stays empty and the genre answer does not matter. |
| Preferences.GenreChosen | main.py:52-75 | With neither a concept nor a title, menu number n in 1..42 makes the concept "A story in <genre n> genre". |
| Preferences.GenreFromEnd | main.py:52-75 | Numbers -41..0 count from the end of the list. 0 picks "Road Trip". |
| Preferences.AnswersStripped | main.py:67-68 | A typed concept or title carries no surrounding whitespace. |
| Preferences.PromptFields | main.py:148-149 | `input_type` is "concept" exactly when the concept is non-empty, and "title" otherwise. `input_value` is the concept when it is non-empty, and the title otherwise. |
| Preferences.PromptFromAnswers | main.py:67-149 | The prompt input is never empty. It is the user's concept if one was given, else the user's title if one was given, else the genre concept, typed "concept". |

## Left out

- The language model: `init_ollama`, the `STORY_PROMPT` template, `PromptTemplate.format` and the call `self.llm(...)`. They are foreign code. Of `generate_story` only the choice of `input_type` and `input_value` is modelled.
- Console I/O: the answers are function inputs. `int(...)` parsing and its `ValueError` on non-numeric input are not modelled: the genre number and paragraph count are integers already. The paragraph count is not range-checked, because the source does not check it.
- `save_to_word`: it only hands the story to `python-docx`.
- The canvas itself is not modelled: the heading `drawString`, `setFont`, `drawText`, `showPage`, `save` and the file name. `SaveToPdf` returns the lines of each page instead of drawing them.
- Font metrics: `stringWidth` is an uninterpreted parameter.
- Float arithmetic: positions and widths are exact reals. A comparison could differ from IEEE doubles only when a width equals the limit, or a cursor equals the margin, to within rounding.
- The `main()` session loop, its exception handler (which reports the `IndexError` and offers to try again) and the save menu. They are control flow over I/O.
- PdfLayout.WrapSourceLine: the inner word loop of `save_to_pdf` is a method of its own, called from the outer loop of `SaveToPdf`. The two loops are not verified in a single method.
- Clipping: the model does not say which lines are visible. Lines placed below the bottom edge of the paper, which a source line long enough to fill a page produces, are kept in their page like any other line.
