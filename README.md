# gen_sigmoid: the sigmoid lookup-table generator, modelled in Dafny

`rtl/nn_rgb/gen_sigmoid.py` is a one-shot generator for a hardware design. It
fills a table of `2**17 = 131072` entries. Entry `i` is the logistic function
at `i` mapped onto [-6, 6], scaled by 100 and rounded. It then writes the
table to `sigmoid_lut.sv` as a SystemVerilog package. The package holds a
constant `logic [7:0]` array, set by an assignment pattern `'{ ... }`
(section 10.9 of IEEE 1800-2017). Each element is a sized hexadecimal literal
`8'hXX` (section 5.7.1 of IEEE 1800-2017).

The model has six modules:

- `GenSigmoid` (`gen_sigmoid.dfy`) holds the script itself, in imperative form:
  - `BuildLut` is the `for` loop that appends one value per index. The
    floating-point kernel is the function parameter `q`.
  - `OutputFile` is the file opened with mode `'w'`. It starts empty and each
    `Write` appends to it.
  - `WriteLut` and `WriteCommaEntries` are the successive `f.write` calls,
    including the loop over `lut[:-1]`.
  - `Generate` is the whole run with `lut_size = 2**17`.
- `SvPackage` (`sv_package.dfy`) is the specification of the output text:
  - `PackageText` is the text the writes produce, write by write.
  - `PackageLines` is the same text as a list of lines.
  - `ParsePackage` parses the file back into the declared size and the
    entries. It takes digit runs only in the form Python prints them: no
    leading zero in the size, and exactly two hex digits per entry unless
    the value needs more. It therefore accepts exactly the texts the
    writer produces (`ParsePackageIff`).
  - The lemmas state the format and the round trip in both directions.
- `Numerals` (`numerals.dfy`) renders numbers as Python's `{n}` and `{n:02X}`
  do, and defines the value a digit string denotes. Each rendering is pinned
  down by its contract: a digit string is the rendering of its value exactly
  when it has no zero fill beyond the requested width (`DecimalUnique`,
  `Hex02Unique`).
- `TextLines` (`text_lines.dfy`) joins text from lines and splits it back.
- `SeqFacts` (`seq_facts.dfy`) holds generic facts about concatenated sequences.
- `Wrappers` (`wrappers.dfy`) defines `Option`.

Table entries are natural numbers. `{n:02X}` is modelled for every natural
number, not only for bytes. Python widens it past two digits for `n >= 256`
and does not fail, so the serialiser requires only a non-empty table:
`lut[-1]` raises on an empty list. Byte-sized entries are a hypothesis of the
lemmas about the exact two-digit form (`ByteEntryLines`, `Generate`).

The declaration prints the constant `lut_size`, not `len(lut)`. The model
therefore keeps the declared size as its own parameter (`lutSize`).
`Generate` proves that it equals the table's length.

## Model

| member | source | states |
|---|---|---|
| `GenSigmoid.BuildLut` | rtl/nn_rgb/gen_sigmoid.py:7-16 | the loop appends once per index: the table has exactly `lutSize` entries and entry `i` is the value computed for index `i` |
| `GenSigmoid.LutSizeIsPow2` | rtl/nn_rgb/gen_sigmoid.py:7 | the constant `LutSize` (`lut_size`, written as the literal 131072) is `2**17`, and the declaration spells it `131072` in decimal |
| `GenSigmoid.OutputFile.constructor` | rtl/nn_rgb/gen_sigmoid.py:19 | a file opened with mode `'w'` starts empty |
| `GenSigmoid.OutputFile.Write` | rtl/nn_rgb/gen_sigmoid.py:20-27 | a write appends its string to the file and changes nothing else |
| `GenSigmoid.WriteCommaEntries` | rtl/nn_rgb/gen_sigmoid.py:23-24 | the loop over `lut[:-1]` appends one comma entry line per value, in table order |
| `GenSigmoid.WriteLut` | rtl/nn_rgb/gen_sigmoid.py:19-27 | the writes append exactly the package text of the table to the file |
| `GenSigmoid.Generate` | rtl/nn_rgb/gen_sigmoid.py:7-27 | the table has 131072 entries with entry `i` equal to `q(i)`; the file's text is the package text, declares the table's own length and parses back to exactly the table; when every value is below 256, every entry line has exactly two hex digits that give the value back |
| `SvPackage.PackageText` | rtl/nn_rgb/gen_sigmoid.py:20-27 | defines the output: the header, then the declaration followed by `= '{` and a newline, then the comma entries of `lut[:-1]` and the last entry, then the footer, concatenated in write order (its properties are the lemmas below) |
| `SvPackage.Declaration` | rtl/nn_rgb/gen_sigmoid.py:21 | defines the second write: `const logic [7:0] sigmoid_lut [`, `{lut_size}` in decimal, and `]` |
| `SvPackage.CommaEntries` | rtl/nn_rgb/gen_sigmoid.py:23-24 | defines the writes of the loop over `lut[:-1]`: `8'h`, `{value:02X}`, `,` and a newline per value, in table order |
| `SvPackage.PackageStartsWithHeader` | rtl/nn_rgb/gen_sigmoid.py:20 | the output begins with exactly `package sigmoid_package;` and a blank line |
| `SvPackage.DeclarationFollowsHeader` | rtl/nn_rgb/gen_sigmoid.py:21-22 | right after the header come `const logic [7:0] sigmoid_lut [`, the declared size in decimal and `]`, then directly `= '{` and a newline, with no space between `]` and `=` |
| `SvPackage.PackageEndsWithFooter` | rtl/nn_rgb/gen_sigmoid.py:27 | the output ends with exactly `};`, a blank line, `endpackage` and a newline |
| `SvPackage.HeaderAsLines` | rtl/nn_rgb/gen_sigmoid.py:20 | the first write is the line `package sigmoid_package;` and a blank line |
| `SvPackage.DeclarationAsLine` | rtl/nn_rgb/gen_sigmoid.py:21-22 | the second and third writes together make one line: the declaration directly followed by `= '{` |
| `SvPackage.HeadAsLines` | rtl/nn_rgb/gen_sigmoid.py:20-22 | the first three writes are the header line, a blank line and the declaration line, each ended by a newline |
| `SvPackage.FooterAsLines` | rtl/nn_rgb/gen_sigmoid.py:27 | the last write is the lines `};`, blank and `endpackage`, each ended by a newline |
| `SvPackage.CommaLinesSnoc` | rtl/nn_rgb/gen_sigmoid.py:23-24 | one more value in the loop adds exactly its comma line at the end, after the earlier ones |
| `SvPackage.CommaEntriesAsLines` | rtl/nn_rgb/gen_sigmoid.py:23-24 | the loop's writes are one line per value, in order: `8'h`, the hex digits and a comma |
| `SvPackage.EntriesAsLines` | rtl/nn_rgb/gen_sigmoid.py:23-26 | the entry writes are one line per entry, in order, with a comma on every line but the last |
| `SvPackage.PackageTextAsLines` | rtl/nn_rgb/gen_sigmoid.py:20-27 | the whole output is the package's lines, each ended by a newline |
| `SvPackage.LinesOfPackageText` | rtl/nn_rgb/gen_sigmoid.py:20-27 | splitting the output at its newlines gives back exactly the package's lines |
| `SvPackage.PackageLinesParts` | rtl/nn_rgb/gen_sigmoid.py:20-27 | the package has `|lut| + 6` lines: three head lines, then line `3 + k` is entry `k`'s line, then the three footer lines |
| `SvPackage.PackageLinesShape` | rtl/nn_rgb/gen_sigmoid.py:20-27 | the output has `|lut| + 6` lines: header, blank, declaration, then one line per entry in table order (`8'h` plus `{v:02X}` plus a comma on all but the last, none on the last), then `};`, blank, `endpackage` |
| `SvPackage.ByteEntryLine` | rtl/nn_rgb/gen_sigmoid.py:24-26 | a byte's entry line is `8'h`, exactly two upper-case hex digits (high nibble first) that denote the byte, and a comma unless it is last |
| `SvPackage.ByteEntryLines` | rtl/nn_rgb/gen_sigmoid.py:23-26 | when every entry is below 256, line `3 + k` of the output is entry `k`'s line with two hex digits that parse back to entry `k`, and the number of entry lines equals the table length |
| `SvPackage.ParseEntryLines` | rtl/nn_rgb/gen_sigmoid.py:23-26 | a successful parse of the entry lines yields exactly one value per line |
| `SvPackage.ParseEntryLineOf` | rtl/nn_rgb/gen_sigmoid.py:24-26 | parsing an entry line recovers the entry, with or without the trailing comma |
| `SvPackage.ParseEntryLinesOfEntries` | rtl/nn_rgb/gen_sigmoid.py:23-26 | parsing the run of entry lines, with a comma on all but the last, recovers the entries in order |
| `SvPackage.ParseDeclarationLineOf` | rtl/nn_rgb/gen_sigmoid.py:21-22 | parsing the declaration line recovers the declared size |
| `SvPackage.PackageRoundTrip` | rtl/nn_rgb/gen_sigmoid.py:20-27 | parsing the output of any non-empty table recovers the declared size and every entry, in order |
| `SvPackage.ParseEntryLineExact` | rtl/nn_rgb/gen_sigmoid.py:24-26 | an entry line parses to `v` if and only if it is the line written for `v` (comma unless last) |
| `SvPackage.ParseDeclarationLineExact` | rtl/nn_rgb/gen_sigmoid.py:21-22 | the declaration line parses to `n` if and only if it is the line written for `n` |
| `SvPackage.ParseEntryLinesExact` | rtl/nn_rgb/gen_sigmoid.py:23-26 | whatever run of lines the entry parser accepts is exactly the entry lines of the values it returns |
| `SvPackage.ParsePackageExact` | rtl/nn_rgb/gen_sigmoid.py:20-27 | whatever text the parser accepts is the output for the non-empty table and size it returns |
| `SvPackage.ParsePackageIff` | rtl/nn_rgb/gen_sigmoid.py:20-27 | a text parses to `Table(n, lut)` if and only if `lut` is non-empty and the text is the output for `n` and `lut` |
| `SvPackage.PackageTextInjective` | rtl/nn_rgb/gen_sigmoid.py:20-27 | two outputs are equal only when the declared sizes and the tables are equal |
| `Numerals.Decimal` | rtl/nn_rgb/gen_sigmoid.py:21 | `{lut_size}`: at least one digit, and a single digit exactly when the number is below 10 (digits and value in `DecimalDenotes`) |
| `Numerals.Hex02` | rtl/nn_rgb/gen_sigmoid.py:24-26 | `{value:02X}`: at least two characters wide (digits and value in `Hex02Denotes`) |
| `Numerals.Numeral` | rtl/nn_rgb/gen_sigmoid.py:21 | the rendering in a base from 2 to 16 has at least one digit, and exactly one when the number is below the base |
| `Numerals.DigitChar` | rtl/nn_rgb/gen_sigmoid.py:24 | the character for a digit below the base is a digit of that base (upper-case letters for hex) |
| `Numerals.NumeralDenotes` | rtl/nn_rgb/gen_sigmoid.py:21 | the rendering of `n` in a base from 2 to 16 is a non-empty string of that base's digits that denotes `n`; it has one digit exactly when `n` is below the base, and otherwise its first digit is not `0` |
| `Numerals.DecimalDenotes` | rtl/nn_rgb/gen_sigmoid.py:21 | `{n}` is a non-empty decimal digit string denoting `n`, with no leading zero unless it is `0` itself |
| `Numerals.Hex02Denotes` | rtl/nn_rgb/gen_sigmoid.py:24 | `{n:02X}` is at least two upper-case hex digits denoting `n`, zero-filled to two digits and no further: for `n >= 16` its first digit is not `0` |
| `Numerals.NumeralUnique` | rtl/nn_rgb/gen_sigmoid.py:21 | the converse: any digit string of a base with no superfluous leading zero is the rendering of the value it denotes |
| `Numerals.DecimalUnique` | rtl/nn_rgb/gen_sigmoid.py:21 | a decimal digit string with no superfluous leading zero is `{n}` of its value |
| `Numerals.Hex02Unique` | rtl/nn_rgb/gen_sigmoid.py:24 | a hex digit string of at least two digits, zero-filled no further than two, is `{n:02X}` of its value |
| `Numerals.Hex02OfByte` | rtl/nn_rgb/gen_sigmoid.py:24 | for `n < 256`, `{n:02X}` is exactly the high and the low hex digit, zero-padded |
| `Numerals.Hex02Widens` | rtl/nn_rgb/gen_sigmoid.py:24 | for `n >= 256`, `{n:02X}` is longer than two digits, so the literal no longer fits `8'h` |

## Left out

- The floating-point kernel is not modelled. This covers `sigmoid` and `math.exp`, the normalisation `(i/(lut_size-1))*12 - 6`, and Python's `round` (half to even on doubles) (rtl/nn_rgb/gen_sigmoid.py:3-4,12-15). The value for index `i` is the parameter `q(i)`.
- The claims that entries lie in [0, 100], never decrease, and are 0 and 100 at the ends are not modelled. They depend on floating-point behaviour. `Generate` takes "every value is below 256" only as a hypothesis of its two-digit conclusion.
- Negative table values are outside the model, because entries are natural numbers. `round` of a logistic value times 100 is never negative, and Python would render a negative value as `-1`, not as two hex digits.
- The model leaves out opening `sigmoid_lut.sv` on disk, closing the handle, and I/O errors. These are I/O. The file is the in-memory `OutputFile`.
- Text-mode translation is not modelled. Mode `'w'` (rtl/nn_rgb/gen_sigmoid.py:19) turns each `"\n"` into the platform's line separator (CRLF on Windows) and encodes with the locale's encoding. `OutputFile.contents` is the text passed to `f.write`, with bare `'\n'` characters.
- The completion message printed to the console is left out. It is I/O.
