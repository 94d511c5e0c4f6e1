# file_handler: line transformer, default file names, sample file

A Dafny model of the logic in `file_handler.py`, a small command-line tool with two jobs:

- It reads a text file and writes a copy in which every line `l`, numbered `i` from 1, becomes
  `Line {i}: {L} [Words: {n}]`. Here `L` is `l` with its trailing whitespace removed and its letters
  upper-cased, and `n` is the number of whitespace-separated words of `l`.
- It offers a menu to create a four-line sample file.

What is modelled:

- **The line transformer** of `read_and_modify_file`:
  - the loop over `enumerate(lines, start=1)` is a method, `Transform.ModifyLines`, with a loop
    invariant. It is proved against the per-line specification `Transform.FormatLine`;
  - the surrounding function is `Transform.ReadAndModify`. File system results are passed in as
    parameters: the result of reading the input file, and the fault, if any, of writing the output;
  - an input with no lines is refused before anything is written;
  - a written file reads back as exactly one formatted line per input line, in order.
- **The string operations** the transformer relies on (module `Text`): `rstrip()`, `strip()`,
  `upper()` and `split()` without arguments, and the decimal rendering of `int`s in f-strings
  (module `Decimal`).
- **Python's `readlines()`/`writelines()`** on the file contents (module `Lines`).
- **The output format.** It is shown to be unambiguous: every output line reads back
  (`Transform.ParseEntry`) as the number, text and word count it was rendered from.
- **The file names the menu works out** (module `FileNames`):
  - typed names are stripped;
  - a blank input name is refused;
  - a blank output name becomes `{name}_modified.{ext}`, split at the last dot, or
    `{input}_modified.txt` when the input name has no dot.
- **The sample file** (module `Sample`): its four lines, and the `sample.txt` default for a blank
  name.

Modelling choices:

- Whitespace is the fixed set of characters for which Python's `str.isspace()` holds
  (`Text.IsSpace`).
- Upper-casing maps only the ASCII letters `a`-`z`.
- File contents are taken after Python's universal-newline translation, so `'\n'` is the only line
  terminator.
- Integers are unbounded, as in Python.

Where a natural-language description of the program and the code differ, the model follows the code:

- The default output name splits at the last dot (`rsplit('.', 1)`), not at some other dot.
- The word count is taken on the `rstrip()`ped line. `Text.WordCountRStrip` proves that this equals
  the count on the unstripped line.

## Model

| member | source | states |
|---|---|---|
| Text.UpperChar | file_handler.py:35 | upper-casing one character leaves no lower-case ASCII letter, maps `a`-`z` to `A`-`Z`, keeps every other character, and keeps whitespace whitespace |
| Text.UpperProperties | file_handler.py:35 | `upper()` keeps the length and every whitespace position, leaves no lower-case ASCII letter, and is idempotent |
| Text.RStrip | file_handler.py:33 | `rstrip()` returns a prefix of the line that is empty or ends in a non-whitespace character, and everything it cuts off is whitespace |
| Text.RStripAppendSpace | file_handler.py:33 | `rstrip()` of a trimmed text followed by any whitespace gives back exactly that text |
| Text.Strip | file_handler.py:108 | `strip()` is empty exactly when the name is all whitespace, and otherwise begins and ends with a non-whitespace character |
| Text.StripSurrounded | file_handler.py:115 | `strip()` of a trimmed text surrounded by whitespace on both sides gives back the text |
| Text.StripIdempotent | file_handler.py:108 | stripping an already stripped name changes nothing |
| Text.Split | file_handler.py:37 | every word `split()` returns is non-empty and contains no whitespace |
| Text.SplitWord | file_handler.py:37 | a single run of non-whitespace characters splits into exactly itself |
| Text.SplitAtSpace | file_handler.py:37 | the words of `a + w + b`, for a non-empty whitespace run `w`, are the words of `a` followed by those of `b`: repeated whitespace adds no words |
| Text.SplitLeadingSpace | file_handler.py:37 | leading whitespace adds no words |
| Text.SplitAppendSpace | file_handler.py:37 | trailing whitespace adds no words |
| Text.WordCountRStrip | file_handler.py:33-37 | counting the words of the stripped line gives the same number as counting those of the raw line |
| Text.WordCountZero | file_handler.py:37 | a line has zero words if and only if it is empty or all whitespace |
| Text.WordCountBound | file_handler.py:37 | a line of length `n` has at most `(n + 1) / 2` words |
| Text.SplitJoinWords | file_handler.py:37 | `split()` undoes `" ".join(words)` for any list of well-formed words |
| Decimal.FromNat | file_handler.py:39 | the rendering of an int field in the f-string is a non-empty digit string without a leading zero (except `0` itself), one digit long exactly for numbers below 10 |
| Decimal.ValueFromNat | file_handler.py:39 | reading a rendered number back gives the number |
| Decimal.FromNatInjective | file_handler.py:39 | different line numbers and word counts render differently |
| Decimal.FromNatValue | file_handler.py:39 | every digit string without a superfluous leading zero is the rendering of its value |
| Lines.SplitLines | file_handler.py:22 | `readlines()` returns lines that are non-empty, carry `'\n'` at most as their last character, and are all terminated except possibly the last; it returns no lines exactly for empty content |
| Lines.ConcatSplitLines | file_handler.py:22 | joining the lines `readlines()` returns reproduces the file content exactly |
| Lines.SplitLinesConcat | file_handler.py:44 | content written by `writelines()` from terminated lines reads back as exactly those lines |
| Lines.SplitLinesAddNewline | file_handler.py:22 | adding the missing final newline to a file changes only its last line, which gains the `'\n'` |
| Lines.TerminateLastAt | file_handler.py:22 | adding the final newline keeps every line but the last, which gains the `'\n'` |
| Transform.EntryOf | file_handler.py:33-37 | the entry of line `i` keeps the number `i`; its text has no trailing whitespace and no lower-case letter and is no longer than the line; its word count is that of the raw line and at most `(len + 1) / 2` |
| Transform.ModifyLines | file_handler.py:30-40 | the loop builds one output line per input line, in input order: line `i` is `FormatLine(i + 1, lines[i])` |
| Transform.FormatAllSnoc | file_handler.py:40 | one more loop iteration appends exactly the formatted next line |
| Transform.ParseRender | file_handler.py:39 | the output format is unambiguous: every rendered line reads back as the number, text and word count it was rendered from |
| Transform.FormatLineReads | file_handler.py:31-39 | output line `i` reports exactly the number `i`, the upper-cased stripped input line and the word count of the input line |
| Transform.FormatLineIgnoresTrailingSpace | file_handler.py:33 | trailing whitespace on an input line, newline included, never changes its output line |
| Transform.FormatTrimmedLine | file_handler.py:33-39 | a line without trailing whitespace is output as `Line {i}: ` + its upper-cased text + ` [Words: {n}]\n`, with or without its newline |
| Transform.FormatWordsLine | file_handler.py:33-39 | a line of single-space-separated words and a newline is output with its upper-cased words and their number as the count |
| Transform.FormatLineTerminated | file_handler.py:39 | every output line is a single line ending in exactly one `'\n'` |
| Transform.OutputReadsBack | file_handler.py:43-44 | the written file reads back as exactly the formatted lines, one per input line |
| Transform.FormatAllTerminateLast | file_handler.py:31-39 | adding a newline to the last input line leaves every output line unchanged |
| Transform.TrailingNewlineIrrelevant | file_handler.py:22-39 | whether the input file ends with a newline does not change the output |
| Transform.ReadAndModify | file_handler.py:19-67 | a read fault is reported as that fault; empty input is refused before any write; a write fault is reported; success holds exactly when the read succeeded, the input has lines and the write succeeded; a success reports the number of input lines, and the written content reads back as the transformed lines |
| FileNames.LastIndexOf | file_handler.py:120 | the position found holds the dot and no later position does, or there is no dot at all |
| FileNames.DefaultNameSplitsAtLastDot | file_handler.py:119-121 | `name.ext`, with no dot in `ext`, becomes `name_modified.ext`: everything before the last dot, dots included, is kept, and so is the extension |
| FileNames.DefaultNameWithoutDot | file_handler.py:122-123 | a name without a dot becomes the name followed by `_modified.txt` |
| FileNames.DefaultNameDiffers | file_handler.py:117-123 | the suggested name is longer than the input name, so it never names the input file itself |
| FileNames.RecoverDefaultName | file_handler.py:119-121 | for a dotted input name, the input name can be recovered from the suggestion, so two dotted names never share a suggestion |
| FileNames.DefaultNameCollision | file_handler.py:119-123 | an undotted name and the same name with `.txt` appended get the same suggestion (`README` and `README.txt` both give `README_modified.txt`) |
| FileNames.NotesExample | file_handler.py:119-121 | `notes.txt` becomes `notes_modified.txt` |
| FileNames.DottedExample | file_handler.py:119-121 | `a.b.txt` becomes `a.b_modified.txt` |
| FileNames.ReadmeExample | file_handler.py:122-123 | `README` becomes `README_modified.txt` |
| FileNames.ResolveNames | file_handler.py:108-123 | a blank input name is refused, whatever the output name; otherwise the input name is the stripped typed name, the output name is the stripped typed output name, and a blank output name is replaced by the suggestion |
| Sample.SampleName | file_handler.py:154-157 | a blank sample name becomes `sample.txt`; any other name is used stripped |
| Sample.SampleReadsBack | file_handler.py:73-77 | the sample file reads back as exactly its four newline-terminated lines, in order |

## Left out

- File I/O (`open`, `readlines`, `writelines`, `write`) is not modelled. `Transform.ReadAndModify` receives the outcome of reading the input file and the fault, if any, of writing the output as parameters.
- The causes of the exceptions caught at file_handler.py:50-67 and 80-82 are not modelled. They appear only as the error tags of `Transform.IoError`.
- Transform.ReadAndModify: does not model the truncated output file that `open(..., 'w')` leaves behind when a later write fails.
- Everything printed to the console is left out: messages, banners and the count printed at file_handler.py:47. `Transform.ReadAndModify` returns the count instead.
- The interactive menu loop and its choice dispatch (file_handler.py:93-167) are left out. They are driven by `input()`, and they only decide which of the modelled operations runs next.
- The preview of the output file (file_handler.py:134-146) is left out. It re-reads the file, prints it, and swallows any failure.
- `create_sample_file` is modelled only as the content it writes (`Sample.SampleContent`). The write itself and its failure are file I/O.
- Text.UpperChar: covers only the ASCII letters. Python's full Unicode `str.upper` (for example `'ß'` becoming `'SS'`) is left out.
- Lines.SplitLines: assumes universal-newline translation has already turned `'\r\n'` and `'\r'` into `'\n'`.
- The output lines of the sample file are not computed as literal strings. The general lemmas in `Transform` give them, but evaluating them on the literal text is too costly for the verifier.
