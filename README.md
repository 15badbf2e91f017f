# markdown2html, modelled and proved in Dafny

`markdown2html` (markdown.py:8-88) turns a short Markdown snippet into HTML. It is a
fixed chain of seventeen `re.sub` calls, each applied to the output of the previous one:

- four escaping passes: `&`, `<`, `>` and `"`;
- two heading passes: `#` gives `<h4>` and `##` gives `<h5>`;
- two list-block passes: `<ul>` and `<ol>`;
- the list-item pass: `<li>`;
- five paired-delimiter passes: `***`, `**`, `*`, `~~` and backtick;
- the link pass;
- the line-break pass: `<br>`;
- the em-dash pass.

This project models that chain exactly as the code runs it:

- **`Substitution.SubAll`** is `re.sub` for one fixed pattern. It scans left to right. Where the pattern matches, it emits the replacement and resumes after the match; otherwise it copies one character.
- **`Patterns`** has one hand-written matcher per pattern.
  - Each matcher's contract ties it to a declarative reading of its regular expression.
  - `^` under `re.M` means "at a line start of this stage's input".
  - `.` never matches `'\n'`.
  - A lazy `(.+?)` takes the shortest non-empty newline-free group.
  - ` {3,4}` tries four spaces first.
  - The link pattern prefers the shortest label, then the shortest url.
- **`Markdown.Render`** is the composition of the stages, in markdown.py's order. Its locals are named after the code's.

Each stage is proved against a partner:

- Escaping has a character-by-character reference and a decoder.
- The heading, list-block and line-break stages each have a line-by-line reference definition.
- The pattern stages have a "leftmost match, shortest group" characterisation and an "unchanged when nothing matches" lemma.

The whole chain is proved equal to the composition of those references (`Markdown.RenderByReference`). Three inputs are followed through every stage: the snippets `*hello*` and `# Title\nBody`, and the em-dash sentence of markdown.py's docstring. A fourth, a list item that carries a second marker, is followed through the list-item and `*` stages.

The model keeps the code's quirks:

- `"` becomes `&quot` with no semicolon.
- `***x***` becomes `<strong><em>x</strong></em>`, with the closing tags not reversed.
- A heading line takes the line under it along, and the same stage never reads that line as a heading. The next heading stage can: `# a\n## b\nc` becomes `<h4>a</h4>\n## b\nc` at the h4 stage, and the h5 stage then rewrites `## b`.
- The list-item stage drops only the first marker. A second marker in the item's text reaches the emphasis stages: `   *    * a*` becomes `<li>   * a*</li>`, and the `*` stage turns that into `<li>   <em> a</em></li>`.
- The line-break stage replaces the newline with `<br>` instead of adding `<br>` before it. So `# Title\nBody` renders as `<h4>Title</h4><br>Body`, and `*hello*` renders as `<em>hello</em>` with no `<br>`.

## Model

| member | source | states |
|---|---|---|
| Escaping.EscapeIsCharwise | markdown.py:42-47 | `Escaping.Escape`, the four `Patterns.SwapMatch` passes, `&` first, escape each character on its own. `&`, `<`, `>` and `"` become `&amp;`, `&lt;`, `&gt;` and `&quot` (no semicolon). A later pass never touches an entity an earlier one produced. |
| Escaping.EscapeWellEscaped | markdown.py:42-47 | After escaping, no `<`, `>` or `"` is left, and every `&` begins `&amp;`, `&lt;`, `&gt;` or `&quot`. |
| Escaping.UnescapeEscape | markdown.py:42-47 | Decoding the four entities left to right gives back the raw input: escaping loses nothing. |
| Patterns.HeadingMatch | markdown.py:50-53 | `^#{n} (.+)\n(.+)$` matches at i exactly when some heading line and non-empty next line start there. The replacement is `<tag>text</tag>`, a newline and the next line, and the match ends where the next line ends. |
| Patterns.ItemSpacesFixed | markdown.py:56-62 | With the markers `*` and `#`, a line cannot start a list line with both 3 and 4 spaces: the text fixes the count, so the greedy order of ` {3,4}` never changes which lines match. |
| Patterns.ListBlockMatch | markdown.py:56-59 | The list-block pattern matches exactly at a line start that begins a list line. What it matches is a maximal run of list lines, the last newline included. The replacement is the run wrapped once in `<tag>…</tag>`. |
| Patterns.ListRunUnique | markdown.py:56-59 | A maximal run of list lines starting at a given line has only one possible end. |
| Patterns.ListItemMatch | markdown.py:62 | The unanchored item pattern matches exactly where 3-4 spaces, `*` or `#`, a space and a non-empty rest of line occur. The replacement is `<li>rest</li>`, and the match runs to the end of the line. |
| Patterns.LazyUntil | markdown.py:65-86 | A lazy `(.+?)` group stops at the least position where the closing delimiter follows a non-empty newline-free group, and at no stop if there is none. |
| Patterns.SpanMatch | markdown.py:65-86 | A paired-delimiter pattern matches at i iff an opening delimiter there is closed later on the line. The match is the shortest such span, with the stage's open and close tags around the inner text. |
| Patterns.LinkMatchSpec | markdown.py:80 | `Patterns.LinkMatch` finds a match iff `[label](url)` occurs at i. It then takes the shortest label and, after it, the shortest url. A longer label never rescues a failed url. |
| Patterns.LineBreakMatch | markdown.py:83 | `(.+)\n` matches at i iff a non-empty newline-free text and a newline follow. It is replaced by the text and `<br>`, with the newline consumed. |
| Patterns.MatchAt | markdown.py:42-86 | No pattern matches the empty string: every match ends after its start. |
| Substitution.SubAllCopies | markdown.py:42-86 | Where the pattern matches nowhere in a stretch of text, `re.sub` copies that stretch unchanged. |
| Substitution.SubUnchanged | markdown.py:42-86 | A text in which the pattern matches nowhere passes through the stage unchanged. |
| Substitution.SubFirstMatch | markdown.py:42-86 | In `Substitution.SubAll`, the model of `re.sub`, the leftmost match wins: the stage copies everything before it, emits its replacement and continues after it. |
| Blocks.HeadingStage | markdown.py:50-53 | A heading stage equals the line-by-line reference. A `#{n} text` line followed by a non-empty line L becomes `<tag>text</tag>\n` + L, and L is consumed. Every other line, including a heading line that is last or followed by an empty line, is copied. |
| Blocks.HeadingStageFirst | markdown.py:50-53 | The first heading line with a non-empty line under it is rewritten, what precedes it is copied, and scanning resumes after the line under it. |
| Blocks.HeadingStageUnchanged | markdown.py:50-53 | Text in which no heading line has a non-empty line under it passes through the heading stage unchanged. |
| Blocks.DeeperNotHeading | markdown.py:50-53 | A line with more than n leading `#` is not a level-n heading line, so `##` lines are left to the h5 stage and `###` lines to none. |
| Blocks.ListStage | markdown.py:56-59 | A list-block stage equals the line-by-line reference. A block opens before the first list line of each run and closes after its last line, newline included. Every other line is copied. |
| Blocks.RunLines | markdown.py:56-59 | Across a maximal run of list lines, the reference emits the run's text unchanged between one opening and one closing tag. |
| Blocks.ListStageUnchanged | markdown.py:56-59 | Text without list lines passes through a list-block stage unchanged: no empty block is ever opened. |
| Inline.ListItemStageFirst | markdown.py:62 | The leftmost list-item occurrence becomes `<li>rest</li>`, even outside a list block. What precedes it is copied, and scanning resumes at the end of its line. |
| Inline.SpanStageFirst | markdown.py:65-77 | A paired-delimiter stage rewrites the leftmost opener that is closed on its line, using the shortest inner text. It copies what precedes the opener and resumes after the closing delimiter, so matches never overlap. |
| Inline.SpanStageUnchanged | markdown.py:65-77 | Text in which no delimiter is closed again on its line passes through a paired-delimiter stage unchanged. |
| Inline.StrongEmNotReversed | markdown.py:65 | `***x***` becomes `<strong><em>x</strong></em>`: the closing tags come in the order the opening tags did. |
| Inline.LinkStageFirst | markdown.py:80 | The leftmost `[label](url)` becomes `<a href="url">label</a>`, with the shortest label and then the shortest url. What precedes it is copied. |
| Inline.LinkStageUnchanged | markdown.py:80 | Text with no `[label](url)` passes through the link stage unchanged. |
| Breaks.BreakStage | markdown.py:83 | The line-break stage equals the line-by-line reference. A non-empty line with a newline has the newline replaced by `<br>`, an empty line keeps its newline, and the last line gets no `<br>`. |
| Breaks.BreakRemovesNewlines | markdown.py:83 | When no line but the last is empty, the line-break stage leaves no newline at all. |
| Breaks.BreakNewlinesAreEmptyLines | markdown.py:83 | The output of the line-break stage contains a newline exactly when the input has an empty line. |
| Breaks.MdashAcrossLines | markdown.py:83-86 | The em-dash stage runs after newlines are gone. So in text without empty lines, a match opens at any `---` that a later `---` follows, because no newline is left to stop it, even where the two were on separate input lines. |
| Markdown.RenderByReference | markdown.py:8-88 | `Markdown.Render`, the model of markdown2html, is the composition of the reference definitions, in the code's order: character-wise escaping, two line-by-line heading passes, two line-by-line list-block passes, the list-item and inline stages, the line-by-line break pass and the em-dash stage. |
| Markdown.TriggerFreeUnchanged | markdown.py:42-86 | A stage leaves alone any text that lacks the characters its pattern cannot match without. |
| Markdown.RenderPlain | markdown.py:8-88 | Text with none of `#`, `*`, `~`, the backtick, `[` or `-`, and no newline, is only escaped, character by character, and decoding the output gives the input back. |
| Examples.EmphasisExample | markdown.py:71-83 | `*hello*` renders as `<em>hello</em>`. With no newline, no `<br>` is added. |
| Examples.HeadingExample | markdown.py:50-83 | `# Title\nBody` renders as `<h4>Title</h4><br>Body`: the newline kept by the heading stage becomes `<br>`. |
| Examples.NestedItemStage | markdown.py:62 | `   *    * a*` becomes `<li>   * a*</li>`: the list-item stage keeps the second marker in the item's text. |
| Examples.NestedItemEmphasis | markdown.py:71 | The `*` stage then opens a span at that marker: `<li>   * a*</li>` becomes `<li>   <em> a</em></li>`. |
| Examples.MdashExample | markdown.py:37-86 | The docstring's `The rain---not the reign---in\nSpain.` renders as `The rain&mdash;not the reign&mdash;in<br>Spain.`. |

## Left out

- A general regular-expression engine: each of the fixed patterns has its own matcher instead.
- Text is a sequence of characters with no Unicode handling. Only `'\n'` ends a line, and `'\r'` is an ordinary character, as it is for Python's `.` and `$`.
- The extra argument passed to `.format` in the list-item stage (markdown.py:62) is ignored by Python, so it has no counterpart in the model.
- The comment at markdown.py:82 describes the em-dash rewrite but sits above the line-break stage. The model follows the code.
- HTML well-formedness and sanitisation: the code promises neither. The tags at markdown.py:65 are misnested, and the url at markdown.py:80 is not checked.
- The module framing, the shebang and performance.
- Breaks.BreakNewlinesAreEmptyLines: the property is stated in terms of the input's empty lines, not as "every newline left in the output follows another newline". The output form does not hold: `a\n\nb` becomes `a<br>\nb`.
