# powertop CSV parser, modelled in Dafny

powertop can write its report as a CSV file: `;`-separated rows, grouped
into sections. A row whose first field is an underline rule (one
character, then underscores) separates sections. The first row after a rule
gives the section's title, and the rows after that are the section's data.
The parser (`parser.go`) splits the report into a map from title to
rows. It then decodes two of the sections:

- "Overview of Software Power Consumers" becomes a list of process
  consumers: pid, CPU usage in ms/s, disk I/O, category, command name and
  estimated power in watts.
- "Device Power Report" becomes a list of device consumers: usage and
  device name, both kept as text.

The project has six modules:

- `Sections` (sections.dfy): the section splitter.
  - `Step`, `Run` and `Split` state, on row values, what one pass of the
    loop does.
  - Lemmas state what that pass promises.
  - `SplitSections` is the loop itself, over the caller's row arrays:
    - it trims data rows in place;
    - it stores those same arrays in the result, so the result aliases
      the caller's rows.
- `Consumers` (consumers.dfy): the field helpers and the two row
  decoders.
  - `ExtractPidFromString`, `ExtractCmdName`, `ConvertUsageToMsPerSecond`
    and `ExtractPwInWatts` are the field helpers.
  - `DecodeProcessRow`, `AddProcessConsumers` and `AddDeviceConsumers`
    are the loops.
  - The regular expression `\[(.*?)\]` is written out as `MatchAt` and
    `FirstBracket`, with leftmost-shortest matching proved.
- `GoStrings`, `GoStrconv` and `GoPath`: the parts of Go's `strings`,
  `strconv` and `path` packages that the parser calls.
  - Each is defined from its documented behaviour and given its own
    lemmas: split/join inverses, trim idempotence, `Atoi`∘`Itoa`, and
    `ParseFloat` on integer and decimal texts.
- `Wrappers`: an `Option` type.

A Go panic becomes a precondition, because the program does not
survive it:

| Go panic | Precondition |
|---|---|
| `line[0]` on an empty row | every row has a field |
| `data[1:]` on no rows | at least one row |
| `line[1]` in the device decoder | device rows have two fields |
| `str[1]` in the unit converters | the field contains a space |

Every other malformed input is modelled the way Go handles it:

- A number that does not parse reads as 0, with one exception: a text
  that starts with a run of more than 2^64 - 1 worth of digits reads as
  the 64-bit bound of its sign. Go's `ParseUint` reports the overflow as
  soon as it happens, before it reaches the characters that follow.
- A missing bracket gives pid 0.
- A short process row leaves Go's zero values.
- An unknown unit is not scaled.

## Model

| member | source | states |
|---|---|---|
| Sections.IsSeparator | parser.go:75 | The rule test `^(.)\_+$` on the first field: one character other than a newline, then one or more underscores. No ensures of its own; `StepEmits` and `RunSeparatorsIdle` state what a rule does. |
| Sections.Step | parser.go:75-97 | One pass of the loop on row values: a rule, a title row or a data row. No ensures of its own; its meaning is in `StepEmits`, `StepInv` and `RunSnoc`, and `SplitRow` is proved to follow it. |
| Sections.Split | parser.go:69-100 | The map the splitter returns, on row values, with no flush at the end. No ensures of its own; its meaning is in `SplitShape`, `KeyOrigin`, `RowOrigin`, `SectionClosed`, `NoTrailingFlush` and `BannerSticky`, and `SplitSections` is proved to return it. |
| Sections.SplitSections | parser.go:69-100 | Loops over the caller's row arrays. The result's keys and row counts are those of `Split` on the rows as they were on entry. Every stored row is one of the caller's arrays, holding the `Split` row. Every data row is trimmed in place, and every other row is left unchanged. The ghost `index` gives, for every stored array, the data row it is, in strictly increasing row order within each section. |
| Sections.SplitRow | parser.go:75-97 | One pass of the loop preserves the invariant that ties the title, the accumulator and the map to `Run` of the rows read so far. It also stores the row as `RowAfter` leaves it. |
| Sections.TrimFieldsInPlace | parser.go:91-93 | The row array afterwards holds `TrimSpace` of each original field. |
| Sections.TracksDone | parser.go:99 | When the loop ends, the map built over the arrays has exactly the keys and rows of `Split`. |
| Sections.StepEmits | parser.go:79-87 | A separator row stores the accumulated rows under the title, overwriting any earlier entry, and resets both title and accumulator. This happens only when rows have accumulated and the title is not the banner. In every other case a separator changes nothing. A row that is not a separator never changes the map. |
| Sections.RunSeparatorsIdle | parser.go:79-87 | Separators read while nothing has accumulated change nothing. |
| Sections.SectionClosed | parser.go:74-97 | Start from no title. A title row, any number of separators, data rows with at least one non-blank row, and then a separator store exactly the kept data rows, trimmed and in input order, under the trimmed title. This replaces an earlier section of the same title, and the title and accumulator become empty. |
| Sections.SplitShape | parser.go:69-100 | The result never has the banner key or the empty key. Each stored section is non-empty. Each stored row is fully trimmed and has a non-empty field. Empty input gives the empty map. |
| Sections.StepInv | parser.go:75-97 | One row preserves the splitter's invariant: no banner or empty key, no empty section, stored and accumulated rows trimmed and non-blank, and a title whenever rows accumulate. |
| Sections.RunInv | parser.go:74-98 | The invariant holds after any sequence of rows. |
| Sections.NoTrailingFlush | parser.go:98-99 | Rows after the last separator are never stored: appending separator-free rows leaves the result unchanged. |
| Sections.BannerSticky | parser.go:80-89 | Once rows accumulate under the banner title, that title and its rows stay, and nothing read afterwards is ever stored. |
| Sections.TrimmedRowKept | parser.go:91-96 | The test on the joined trimmed fields holds exactly when some trimmed field is non-empty, that is exactly when some original field is not blank. |
| Sections.RunDataRows | parser.go:90-96 | Under a title, data rows without separators are appended in order, trimmed, with blank rows dropped. The title and the map do not change. |
| Sections.RunFromAppend | parser.go:74 | Running the loop over `a + b` equals running it over `a` and then over `b`. |
| Sections.RunFromNoSeparator | parser.go:79-97 | Rows without a separator never change the map. |
| Sections.HeaderOrigin | parser.go:88-89 | A non-empty current title is the trimmed first field of some row that was read as a title. |
| Sections.KeyOrigin | parser.go:83-89 | Every key of the result is the trimmed first field, without `' '` and `'*'`, of some row read as a title. |
| Sections.CurrentOrigin | parser.go:91-96 | Every accumulated row is the trimmed form of some row read as data. |
| Sections.RowOrigin | parser.go:83-96 | Every stored row is the trimmed form of some input row read as data: neither a separator nor a title row. |
| Sections.RunSnoc | parser.go:74 | Running one more row is one more `Step`. |
| Sections.TrimFieldsTrimmed | parser.go:91-93 | Every trimmed field has no white space at either end. |
| Sections.TrimFieldsFixed | parser.go:94 | Trimming a trimmed field again changes nothing. |
| Sections.KeptRowShape | parser.go:91-95 | A stored row's fields are each their own `TrimSpace`. |
| Consumers.AddProcessConsumers | parser.go:102-127 | Requires a heading row, and returns one record per row after it. Record `i` is the decoding of row `i + 1`. |
| Consumers.AppendProcessRow | parser.go:104-125 | One pass of the outer loop appends exactly the record of row `k`. |
| Consumers.ProcessConsumersOfSnoc | parser.go:124 | Decoding one more row appends its record at the end. |
| Consumers.ProcessConsumersOfRows | parser.go:104 | After the heading row, entry `i` of the decoded rows is the record of row `i + 1`. |
| Consumers.DecodeProcessRow | parser.go:105-123 | The loop over one row's fields builds exactly the positional record `ProcessConsumerOf`. |
| Consumers.DescriptionOfRow | parser.go:112-119 | The category is field 5 and the pid always comes from field 6. The description is `extractCmdName` of field 6 exactly when the category is `"Process"`, and field 6 verbatim otherwise. |
| Consumers.IgnoredFields | parser.go:106-123 | Two rows that have the same length, or both have at least eight fields, and that agree on fields 0 and 4-7 decode to the same record: fields 1-3 and those after 7 take no part. |
| Consumers.DecodablePrefix | parser.go:106 | The converters' space requirement on fields 0 and 7 holds for every prefix of a decodable row. |
| Consumers.AddDeviceConsumers | parser.go:129-138 | Requires a heading row and two fields in each later row. Returns one entry per row after the heading, and entry `i` is fields 0 and 1 of row `i + 1`, verbatim. |
| Consumers.CloseFrom | parser.go:143-144 | A found closing position lies at or after the start and inside the string. |
| Consumers.CloseFromSpec | parser.go:143-144 | The scan finds exactly the first `]` with no line break before it. |
| Consumers.MatchFrom | parser.go:143-144 | A found match lies at or after the start position and inside the string. |
| Consumers.MatchFromSpec | parser.go:143-144 | The scan finds a match of `\[(.*?)\]`, no match starts earlier, and when it finds none there is none. |
| Consumers.FirstBracketSpec | parser.go:143-145 | The submatch is absent exactly when the pattern matches nowhere. Otherwise it is the body of the leftmost match. |
| Consumers.FirstBracket | parser.go:143-145 | The submatch of `\[(.*?)\]` that `FindStringSubmatch` returns, or none. Its meaning is in `FirstBracketSpec` (the leftmost shortest match) and `FirstBracketOf`. |
| Consumers.ExtractCmdName | parser.go:152-161 | The command name of a description: the trimmed field's words decide between the one word, `path.Base` of the third word, and the field itself. No ensures of its own; its meaning is in `CmdNameShape`, `CmdNameTwoWords`, `CmdNameOfParts` and `CmdNameOfPath`. |
| Consumers.ConvertUsageToMsPerSecond | parser.go:176-188 | Usage in ms/s: the number before the first space, scaled by the unit after it. No ensures of its own; its meaning is in `UsageOfNumberUnit` and the usage examples. |
| Consumers.ExtractPwInWatts | parser.go:163-174 | Power in watts: the number before the first space, scaled by the unit after it. No ensures of its own; its meaning is in `PowerOfNumberUnit` and the power examples. |
| Consumers.ProcessConsumerOf | parser.go:105-123 | The record one process row describes, field by field, with Go's zero values for absent fields. No ensures of its own; its meaning is in `DescriptionOfRow` and `IgnoredFields`, and `DecodeProcessRow` is proved to compute it. |
| Consumers.ExtractPidFromString | parser.go:140-150 | The pid is a 64-bit value. |
| Consumers.PidWithoutBracket | parser.go:142-149 | A field without a bracket pair gives pid 0. |
| Consumers.FirstBracketOf | parser.go:143-145 | With no `[` before it, the first bracket pair's body is the text up to the next `]`. |
| Consumers.PidInBracket | parser.go:145-147 | For a field `pre[words num]post` where `pre` has no `[` and `words` is empty or ends in a space, the pid is `Atoi(num)`, whatever text `num` is. `FirstBracketSpec` covers fields with an earlier `[`. |
| Consumers.PidUnparsableToken | parser.go:145-147 | A last token that is not an integer gives pid 0, unless it starts with digits worth more than 2^64 - 1. |
| Consumers.PidWordTokenExample | parser.go:145-147 | `"[kworker u8]"` gives pid 0. |
| Consumers.PidOfInteger | parser.go:140-150 | Every 64-bit integer written last in the first bracket pair is read back as the pid. |
| Consumers.PidExample | parser.go:140-150 | `"foo [bar 1234]"` gives pid 1234. |
| Consumers.PidNegativeExample | parser.go:146-147 | `"[x -5]"` gives pid -5: a sign is accepted. |
| Consumers.PidEmptyBracketExample | parser.go:145-147 | `"[]"` gives pid 0. |
| Consumers.PidNoBracketExample | parser.go:142-149 | `"foo"` gives pid 0. |
| Consumers.ProcessDescriptionPid | parser.go:140-150 | `[PID n] ...` gives pid `n`. |
| Consumers.ProcessDescriptionCmd | parser.go:152-161 | `[PID n] dir/name args` gives the command name `name`. |
| Consumers.ProcessDescription | parser.go:114-116 | For powertop's process description `[PID n] dir/name args`, the pid is `n` and the command name is `name`. |
| Consumers.CmdNameShape | parser.go:152-161 | A trimmed field with no space is returned trimmed. A field of exactly two words is returned as it came, untrimmed. A field of three or more words gives a non-empty base name without `/`, or `/`. |
| Consumers.CmdNameTwoWords | parser.go:153-160 | A field whose trimmed text has exactly two words is returned unchanged. |
| Consumers.CmdNameOfPath | parser.go:153-158 | `a b dir/name rest` gives `name`. |
| Consumers.CmdNameOfParts | parser.go:157-158 | When the trimmed field has three or more words, the result is `path.Base` of the third word. |
| Consumers.SplitTwoWords | parser.go:153 | Splitting `a b t` on spaces gives `a`, `b`, then the words of `t`. |
| Consumers.FirstWordOfPath | parser.go:158 | The first word of `dir/name rest` is `dir/name`. |
| Consumers.CmdNameExample | parser.go:152-161 | `"a b /usr/bin/foo"` gives `"foo"`. |
| Consumers.SpacedSplit | parser.go:177-180 | A field with a space splits into at least two pieces, so `str[1]` exists. |
| Consumers.NumberUnitSplit | parser.go:177-180 | For `number unit rest`, piece 0 is the number and piece 1 is the unit. |
| Consumers.UsageOfNumberUnit | parser.go:176-188 | The usage is the parsed number times 1000 for `s/s`, times 1/1000 for `us/s`, and unscaled for any other unit. |
| Consumers.PowerOfNumberUnit | parser.go:163-174 | The power is the parsed number times 1/1000 for `mW`, times 1/1000000 for `uW`, and unscaled for any other unit. |
| Consumers.UsageSecondsExample | parser.go:181-182 | `"2 s/s"` gives 2000. |
| Consumers.UsageMicrosecondsExample | parser.go:183-184 | `"500 us/s"` gives 0.5. |
| Consumers.UsageMillisecondsExample | parser.go:176-188 | `"10 ms/s"` gives 10. |
| Consumers.TenExample | parser.go:178 | `ParseFloat("10")` is 10. |
| Consumers.FiveHundredExample | parser.go:178 | `ParseFloat("500")` is 500. |
| Consumers.UsageDoubleSpaceExample | parser.go:177-180 | `"7  s/s"` has an empty unit in second place, so it gives 7, unscaled. |
| Consumers.UsageFractionExample | parser.go:176-188 | `"2.5 ms/s"` gives 2.5. |
| Consumers.FractionExample | parser.go:178 | `ParseFloat("2.5")` is 2.5. |
| Consumers.AtoiExample | parser.go:147 | `Atoi("1234")` is 1234. |
| Consumers.PidTokenExample | parser.go:144-147 | The pid of `"foo [bar 1234]"` is `Atoi("1234")`. |
| Consumers.PowerMilliwattsExample | parser.go:168-169 | `"5 mW"` gives 0.005. |
| Consumers.PowerMicrowattsExample | parser.go:170-171 | `"3 uW"` gives 0.000003. |
| Consumers.PowerWattsExample | parser.go:163-174 | `"2 W"` gives 2, unscaled. |
| GoStrings.TrimSpace | parser.go:92 | `strings.TrimSpace` over Go's white space set. No ensures of its own; its meaning is in `TrimFuncShape`, `TrimSpaceIdempotent` and `TrimSpaceFixed`. |
| GoStrings.Trim | parser.go:89 | `strings.Trim` with a cut set, used on the title with `" *"`. No ensures of its own; its meaning is in `TrimFuncShape` and `TrimFuncIdempotent`. |
| GoStrings.TrimFuncShape | parser.go:89-92 | Trimming removes a prefix and a suffix whose characters satisfy the predicate, and keeps a middle whose ends do not. |
| GoStrings.TrimLeftFuncShape | parser.go:89-92 | The left trim drops exactly the longest prefix of matching characters. |
| GoStrings.TrimRightFuncShape | parser.go:89-92 | The right trim drops exactly the longest suffix of matching characters. |
| GoStrings.TrimFuncIdempotent | parser.go:89-92 | Trimming twice equals trimming once. |
| GoStrings.TrimSpaceIdempotent | parser.go:92-94 | `TrimSpace` twice equals `TrimSpace` once. |
| GoStrings.TrimSpaceFixed | parser.go:92 | `TrimSpace` leaves no white space at either end, and it is the identity exactly on such strings. |
| GoStrings.TrimFuncKeeps | parser.go:94 | A string with a character that is not trimmed keeps a non-empty trim. |
| GoStrings.Join | parser.go:94 | Joining no parts gives the empty string. |
| GoStrings.JoinContains | parser.go:94 | Every character of every part occurs in the join. |
| GoStrings.JoinEmpty | parser.go:94 | Joining empty parts gives the empty string. |
| GoStrings.BlankJoinIff | parser.go:94 | For trimmed fields, the joined text is non-blank exactly when some field is non-empty. |
| GoStrings.Count | parser.go:146 | The count of a character is at most the length, and it is 0 exactly when the character is absent. |
| GoStrings.Split | parser.go:146 | `strings.Split` on one character gives at least one piece, and no piece contains the separator. |
| GoStrings.SplitCount | parser.go:146 | There is one more piece than there are separators. |
| GoStrings.JoinSplit | parser.go:153 | Joining the pieces with the separator restores the string. |
| GoStrings.SplitJoin | parser.go:153 | Splitting a join of separator-free parts gives back the parts. |
| GoStrings.SplitWord | parser.go:153 | A first word followed by the separator splits off as the first piece. |
| GoStrings.SplitNone | parser.go:153 | A string without the separator is one piece. |
| GoStrings.SplitHead | parser.go:177 | The first piece ends at the first separator. |
| GoStrings.SplitLast | parser.go:146-147 | The last piece starts after the last separator. |
| GoStrconv.ParseUint | parser.go:147 | `strconv.ParseUint` in base 10: a range error once the leading digits pass 2^64 - 1, a syntax error for empty text or a non-digit, otherwise the value. No ensures of its own; its meaning is in `ParseUintEarlyStop`, `AtoiInteger` and `AtoiMalformed`. |
| GoStrconv.ParseFloat | parser.go:110 | `strconv.ParseFloat` with the error dropped, over exact reals: a decimal text's value, or 0 for malformed text. No ensures of its own; its meaning is in `ParseFloatInteger`, `ParseFloatFraction`, `ParseFloatNegative` and `ParseFloatNoDigits`. |
| GoStrconv.Clamp | parser.go:147 | An overflowing integer is clamped to the nearest 64-bit value. |
| GoStrconv.Atoi | parser.go:147 | An `Atoi` result is 64-bit. |
| GoStrconv.AtoiInteger | parser.go:147 | An integer text reads as its value clamped to 64 bits, and as exactly its value when that is in range. |
| GoStrconv.AtoiMalformed | parser.go:147 | Text that is not an integer reads as 0, unless its leading digits (after one sign) are worth more than 2^64 - 1. In that case it reads as `MaxInt`, or as `MinInt` after a minus sign, whatever follows. |
| GoStrconv.ParseUintEarlyStop | parser.go:147 | Once a prefix of digits is worth more than 2^64 - 1, `ParseUint` reports a range error, whatever comes after it. |
| GoStrconv.DigitsValuePrefix | parser.go:147 | A prefix of a digit run is worth at most the whole run, so overflow at some prefix is overflow of the whole leading run. |
| GoStrconv.AtoiOverflowExample | parser.go:147 | `"99999999999999999999x"` reads as `MaxInt`, not 0. |
| GoStrconv.NinesValue | parser.go:147 | A run of `n` nines is worth 10^n - 1. |
| GoStrconv.IntegerTextChars | parser.go:147 | An integer text holds no space, bracket or newline. |
| GoStrconv.DigitsOf | parser.go:147 | The decimal digits of a number are non-empty, with no leading zero. |
| GoStrconv.Itoa | parser.go:147 | Decimal text is a sign and digits. |
| GoStrconv.DigitsValueOf | parser.go:147 | The digits of `n` have the value `n`. |
| GoStrconv.DigitsValueSnoc | parser.go:147 | Appending a digit multiplies the value by ten and adds the digit. |
| GoStrconv.ItoaValue | parser.go:147 | `Itoa` writes an integer text with exactly the given value. |
| GoStrconv.AtoiItoa | parser.go:147 | `Atoi` reads back every 64-bit integer that `Itoa` writes. |
| GoStrconv.LeadingDigitsShape | parser.go:178 | The leading-digit count covers a run of digits that ends at a non-digit or at the end of the text. |
| GoStrconv.LeadingDigitsAll | parser.go:178 | In an all-digit text, every character is a leading digit. |
| GoStrconv.LeadingDigitsPrefix | parser.go:178 | The digit run of `w + t` is `w` when `t` starts with a non-digit. |
| GoStrconv.ParseFloatInteger | parser.go:178 | An integer text parses to its value, which agrees with `Atoi` in the 64-bit range. |
| GoStrconv.ParseFloatFraction | parser.go:178 | `w.f` parses to the value of its integer digits plus its fraction digits. |
| GoStrconv.ParseFloatNegative | parser.go:178 | A leading `-` negates the value, and it keeps malformed text malformed. |
| GoStrconv.ParseFloatNoDigits | parser.go:178 | Text that starts with none of a sign, a digit or a point parses to 0. |
| GoStrconv.UnsignedParts | parser.go:178 | The integer part of an unsigned number ends at its first non-digit. |
| GoStrconv.FractionPart | parser.go:178 | A point and digits to the end add the fraction's value. |
| GoPath.AfterLastSlash | parser.go:158 | The text after the last `/` has no `/`, is a suffix, and either is the whole text or follows a `/`. |
| GoPath.Base | parser.go:158 | `path.Base` is non-empty, is `/` or has no `/`, and gives `.` for the empty path. |
| GoPath.AfterLastSlashOf | parser.go:158 | The text after the last `/` of `dir/name` is `name`. |
| GoPath.AfterLastSlashNone | parser.go:158 | A name without `/` is its own last element. |
| GoPath.BaseOfPath | parser.go:158 | The base of `dir/name` is `name`, and a bare name is its own base. |

## Left out

- `main` and `GetSysPower` (parser.go:31-67) are not modelled.
  - They run powertop as a subprocess, open a temporary file and print
    with `fmt`.
  - As written they do not compile: `exec` is not imported and
    `tempPath` is undefined.
- The CSV tokenisation (`encoding/csv` with `;`, `#` comments and variable
  field counts) is not modelled. The model's input is the record list.
- Looking up a missing section passes `nil` to a decoder, and
  `make(..., len(data)-1)` panics. In the model this is the decoders'
  precondition of at least one row.
- The splitter's regex error branch and its log line (parser.go:76-78)
  are not modelled. They cannot be reached for a constant pattern. The
  pattern is the predicate `IsSeparator`.
- `float64` is modelled as exact reals.
  - Rounding in `ParseFloat` and in the divisions is not modelled.
    `0.005` is the exact decimal, not the nearest double.
  - `ParseFloat`'s other syntaxes are not modelled: `inf`, `nan`,
    hexadecimal floats and `_` separators. They parse to 0 here.
  - Overflow to infinity is not modelled.
- `Sections.SplitSections` requires the row arrays to be distinct, as
  `csv.ReadAll` returns them. Rows shared between positions are not
  modelled.
- `Consumers.AddProcessConsumers` and `Consumers.AddDeviceConsumers` take
  rows as values. The aliasing between the section rows and the caller's
  arrays is stated only in `Sections.SplitSections`.
- `Consumers.AddProcessConsumers` requires fields 0 and 7 of every row to
  contain a space, because Go indexes `str[1]` and panics otherwise. The
  precondition is stated as `Consumers.Decodable`.

## Behaviour worth knowing

Three consequences of `parser.go` as written. The model keeps each one:

- The banner title `"P o w e r T O P"` is never reset (parser.go:80-87).
  - Once rows accumulate under it, every later separator leaves the
    title and the rows as they are.
  - So nothing after the banner's rows is ever stored
    (`Sections.BannerSticky`), and the banner section itself is never
    stored either.
- A usage or power field without a unit, such as `"10"`, panics at
  `str[1]` (parser.go:167 and parser.go:180).
  - The converters therefore require a space in the field.
- A pid token with a sign keeps its sign: `"[x -5]"` gives -5, because
  the token goes to `strconv.Atoi` unchecked (parser.go:146-147,
  `Consumers.PidNegativeExample`).
