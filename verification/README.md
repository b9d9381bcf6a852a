# pam_math in Dafny

pam_math is a PAM authentication module that asks the user challenge
questions instead of (or besides) a password. A question either comes from
an arithmetic generator (`a op b` for eight operators: addition,
subtraction, multiplication, exact division, floor `mod`, truncating `rem`,
floor division and truncating division) or from a CSV corpus of
question/answer rows filtered by a pattern. The module asks `questions`
questions with up to `attempts` tries each, and succeeds only when every
question is answered.

This project models the core of the module and proves properties of it:

- `helpers.dfy` (module `Helpers`): the POSIX.1-2001 linear congruential
  generator behind `randint` as a class over the three globals, its one-shot
  "skip reseed" flag, and the bounded string copy and duplicate over arrays.
- `csv.dfy` (module `Csv`): `csv_start`, which ends the line in place, and
  `csv_read`, the quote-aware field tokenizer with its forward-only cursor.
  The tokenizer is specified by a function, `ReadField`. A method running
  the source's loop is proved equal to it, and lemmas prove that the
  tokenizer inverts RFC 4180 (section 2) quoting.
- `division.dfy` (module `Division`): floor and truncating division and
  remainder, defined independently of Dafny's Euclidean `/` and `%`, each
  pair characterised by a uniqueness lemma.
- `decimal.dfy` (module `Decimal`): `%d` output and the
  `sscanf("%d%c") == 1` acceptance test, with the round trip between them.
- `math_questions.dfy` (module `MathQuestions`): the range repair of
  `build_config`, and `make_question` with its two rejection loops as a
  method proved against a specification function. Lemmas prove that every
  drafted problem's stored answer is the value of the expression it shows,
  with no 32-bit overflow. It also covers `get_answer` and `check_answer`.
- `file_questions.dfy` (module `FileQuestions`): rejection-sampled
  `randint`, which takes 32-bit words from the entropy source; the
  case-insensitive header lookup; row filtering; size-1 reservoir sampling;
  and the answer checks.
- `pam_module.dfy` (module `PamModule`): the question/attempt controller
  `ask_questions` over the abstract question interface, and the
  configuration-failure path of `pam_sm_authenticate`.
- `opt.dfy` (module `Opt`): the Option type.

Randomness is an explicit input. The arithmetic generator takes a sequence
of raw 15-bit generator outputs (`randint(n)` is `raw % n`), each below
32768; `MathQuestions.RandIntRun` shows that the generator of helpers.c
yields exactly such a sequence. Because a raw value never exceeds 32767,
an operand range wider than 32768 values is only reached in its lowest
32768 values (`MathQuestions.WideProductReach`). The corpus
generator takes a sequence of 32-bit words, each of which may be a short
read. The conversation is a function from the index of a round trip to the
reply. Every property is a deterministic statement about these inputs.

## Model

| member | source | states |
|---|---|---|
| Helpers.LcgOutput | helpers.c:101-102 | the raw value `randint` reduces is below 32768 |
| Helpers.LcgNext | helpers.c:101 | the state update: `random_buf * 1103515245 + 12345` wrapping modulo 2^32 (a definition, no contract) |
| Helpers.LcgIter | helpers.c:98-104 | the state after k calls of `randint`: each call past the first applies one more update to the state after k - 1 |
| Helpers.RawStream | helpers.c:98-104 | the outputs drawn from a state are a function of that state alone (equal seeds give equal sequences), all below 32768 |
| Helpers.RawStreamAt | helpers.c:101-102 | the i-th output is the output of the state after i + 1 steps of the mod-2^32 update |
| Helpers.Prng.constructor | helpers.c:71-73 | the reseed flag starts armed, the seed and the buffer start at zero |
| Helpers.Prng.MaybeInitRandom | helpers.c:75-94 | the seed is replaced by fresh entropy exactly when the flag was armed; the flag is re-armed; the stream always restarts from the seed |
| Helpers.Prng.SkipNextInitRandom | helpers.c:96 | disarms the flag and changes nothing else |
| Helpers.Prng.RandInt | helpers.c:98-104 | one multiply-add step mod 2^32; the result is the stream's next output mod n, in [0, n) and below 32768; seed and flag untouched |
| Helpers.ReplayAfterSkip | helpers.c:71-104 | after a skip, reinitialisation replays the same draw whatever entropy is offered, and the flag is armed again afterwards |
| Helpers.CString | helpers.c:50 | the text of a buffer is the prefix before its first NUL and holds no NUL |
| Helpers.StrLCopy | helpers.c:45-54 | size 0 writes nothing; otherwise exactly min(strlen(src), size-1) characters of src then a NUL, nothing after them touched, and the buffer reads as that prefix |
| Helpers.CStringOfTerminated | helpers.c:53 | a buffer whose first NUL is at n reads as its first n characters |
| Helpers.StrNDup | helpers.c:56-69 | NULL exactly when n + 1 wraps; otherwise a fresh buffer of n + 1 characters reading as the first min(strlen(s), n) characters of s |
| Csv.CsvStart | csv.c:9-21 | the line is cut at its first CR, LF or NUL, no other character changes, the cursor is at the start, and the line left holds no CR, LF or NUL (so `strchr` in `csv_read` sees all of it) |
| Csv.Find | csv.c:63 | `strchr` finds an index of the character at or after the start |
| Csv.ScanQuoted | csv.c:28-60 | the decoded rest of a quoted field is no longer than the input, and the cursor moves forward or the row ends |
| Csv.ReadField | csv.c:23-74 | an exhausted cursor yields NULL and stays exhausted; a live one yields a field no longer than what is left and moves strictly forward or ends the row |
| Csv.CsvRead | csv.c:23-74 | running the source's branches and loop gives exactly `ReadField`'s field and cursor |
| Csv.ReadQuoted | csv.c:28-60 | the source's `for(;;)` loop over quoted runs computes `ScanQuoted` |
| Csv.FieldsFrom | csv.c:23-74 | repeated reads from a live cursor yield at least one field, and at most as many as there are characters left (plus one) |
| Csv.Fields | csv.c:9-74 | a row yields between 1 and length + 1 fields |
| Csv.ReadFieldComma | csv.c:68-71 | an unquoted field before a comma is the text up to it, and the cursor lands after it |
| Csv.ReadFieldLast | csv.c:64-67 | an unquoted field without a later comma is the rest of the line, and the row ends |
| Csv.UnquotedLineSplitsOnCommas | csv.c:62-72 | a quote-free line splits exactly on its commas: no field holds a comma and re-joining gives the line |
| Csv.TrailingCommaAddsEmptyField | csv.c:68-71 | a trailing comma adds exactly one empty final field |
| Csv.EmptyLastField | csv.c:64-67 | reading at the very end of a row yields one empty field |
| Csv.ScanQuotedStepDoubled | csv.c:48-50 | a doubled quote contributes one literal quote and the scan continues after the pair |
| Csv.ScanQuotedStepClose | csv.c:44-53 | a closing quote at the end of the line ends the row; before a comma it leaves the cursor after the comma |
| Csv.ScanQuotedEscaped | csv.c:28-60 | a quoted field with every quote doubled decodes back to its text |
| Csv.ReadEncodedField | csv.c:23-74 | a field written as an RFC 4180 writer writes it reads back as the same field |
| Csv.EncodedRowRoundTrip | csv.c:23-74 | tokenizing an RFC 4180-encoded row gives back its fields |
| Csv.UnterminatedQuote | csv.c:34-38 | an unterminated quote takes the rest of the line verbatim and ends the row |
| Csv.StrayAfterClosingQuote | csv.c:54-58 | a closing quote followed by another character appends the rest of the line verbatim and ends the row |
| Csv.QuotedFieldLeavesCallerCursor | csv.c:32 | as written, a quoted field never moves the caller's cursor, whereas `ReadField` always advances or ends |
| Csv.QuotedFieldCounterexample | csv.c:32 | on the row `"x"`, the code as written returns `x"` and leaves the cursor on the quote, where `x` and the end of the row are intended |
| Csv.ReadFieldAsWritten | csv.c:23-74 | `csv_read` as written, over the caller's cursor and the slots after it in memory: NULL exactly for a NULL cursor; off the quoted branch the same field and the same new cursor as `ReadField` |
| Csv.QuotedAsWritten | csv.c:28-60 | the quoted-field loop as written, stepping through those slots: it never yields NULL and never writes a slot it has already stepped past, the caller's cursor included |
| Division.Abs | math_questions.c:309 | `abs` is the magnitude |
| Division.Sign | math_questions.c:307 | the sign times the magnitude is the number |
| Division.FloorDivMod | math_questions.c:301-312 | floor quotient and remainder recompose the dividend; the remainder is zero or has the divisor's sign and is smaller than it |
| Division.FloorUnique | math_questions.c:301-312 | any decomposition with a floor-style remainder is the floor one |
| Division.TruncDivRem | math_questions.c:313-326 | truncating quotient and remainder recompose the dividend; the remainder is zero or has the dividend's sign and is smaller than the divisor |
| Division.TruncRemMagnitude | math_questions.c:313-326 | the truncating remainder is the remainder of the magnitudes with the dividend's sign |
| Division.TruncUnique | math_questions.c:313-326 | any decomposition with a truncation-style remainder is the truncating one |
| Division.ExactDivision | math_questions.c:288-300 | an exact multiple divides back under both roundings with zero remainder |
| Division.SameSignAgree | math_questions.c:347-351 | floor and truncating division agree when the operands do not have opposite signs |
| Decimal.DigitChar | math_questions.c:393 | a digit character and its value correspond |
| Decimal.NatToString | math_questions.c:393 | `%d` of a natural number is a non-empty run of digits without a leading zero |
| Decimal.IntToString | math_questions.c:393 | `%d` starts with a minus sign exactly for negative numbers, and is all digits otherwise |
| Decimal.SkipSpace | math_questions.c:399 | `%d` skips leading white space |
| Decimal.DigitRun | math_questions.c:399 | `%d` reads a maximal run of digits |
| Decimal.ParseInt | math_questions.c:396-401 | an accepted reply is non-empty and ends in a digit, and a negative value needs a minus sign in it |
| Decimal.NatToStringValue | math_questions.c:393 | the digits written for n spell n |
| Decimal.FormatThenParse | math_questions.c:392-403 | `sscanf("%d%c")` accepts the text `%d` writes and reads back the same number |
| Decimal.TrailingCharacterRejected | math_questions.c:399-401 | any character after an accepted number makes `%c` match, so the text is rejected |
| MathQuestions.OpOf | math_questions.c:12 | each draw 0..7 names the operator with that number in the enumeration |
| MathQuestions.SwapStep | math_questions.c:128-144 | the ends become the smaller and the larger of the two, and the flag is set exactly when they were reversed (or it already was) |
| MathQuestions.ClampStep | math_questions.c:146-198 | each end is clamped into [-bound, bound], and the flag is set exactly when an end moved (or it already was) |
| MathQuestions.WidenStep | math_questions.c:200-224 | a range of two or more values is left as it is; a collapsed one is flagged and spans two values, keeping `min` when it is negative and `max` otherwise |
| MathQuestions.RepairRange | math_questions.c:126-224 | for any input the repaired range satisfies -bound <= lo < hi <= bound; it is the swapped and clamped range, a collapsed one widened by one towards zero |
| MathQuestions.BuildConfig | math_questions.c:126-241 | the in-place repair steps give the repaired configuration and the `fixed` flag, and the result is valid |
| MathQuestions.SwapReversed | math_questions.c:128-144 | a reversed range is swapped and flagged |
| MathQuestions.ClampEnds | math_questions.c:146-198 | each endpoint is clamped into the overflow-safe bounds, flagged when it moves |
| MathQuestions.WidenOnePoint | math_questions.c:200-224 | a collapsed range moves one endpoint by one, towards zero, without overflow |
| MathQuestions.FlagIsShared | math_questions.c:126-231 | the one `fixed` flag shared by both ranges is set exactly when either range was repaired |
| MathQuestions.RepairKeepsValidRange | math_questions.c:128-224 | an already valid range is left unchanged and not flagged |
| MathQuestions.RepairReportsChange | math_questions.c:126-231 | the diagnostic is printed exactly when the range changed |
| MathQuestions.CollapsedRangeWidensByOne | math_questions.c:200-224 | a collapsed range becomes `max = min + 1` when negative, `min = max - 1` otherwise |
| MathQuestions.Repaired | math_questions.c:126-241 | every option set becomes a valid configuration, so after repair `a + b` and `q * b + c` cannot overflow; `attempts` and `ops` are kept |
| MathQuestions.NoOperatorsNoQuestions | math_questions.c:239-241 | with no operator enabled `questions` is 0, otherwise it is kept |
| MathQuestions.ValidOptionsUnchanged | math_questions.c:126-231 | valid ranges pass through unchanged with no diagnostic |
| MathQuestions.RandIntOf | math_questions.c:267 | `randint(n)` is in [0, n) |
| MathQuestions.Uniform | math_questions.c:267 | `min + randint(max - min + 1)` is in [min, max] |
| MathQuestions.RandIntRun | helpers.c:98-104 | a run of `randint` calls returns `RandIntOf` of the generator's raw stream, every value of which is below 32768, and leaves the state that many updates on |
| MathQuestions.UniformReach | math_questions.c:267 | from a raw value below 32768, `min + randint(max - min + 1)` is at most min + 32767; a range of at most 32768 values is reached in full |
| MathQuestions.WideProductReach | math_questions.c:278-281 | with the widest multiplicative range [-46339, 46339], both MUL operands are at most -13572 |
| MathQuestions.ChooseOp | math_questions.c:255-257 | the chosen operator's bit is set, and at least one draw is consumed |
| MathQuestions.ChooseOpIsFirst | math_questions.c:255-257 | the operator is that of the first draw whose bit is set; every earlier draw named a disabled operator |
| MathQuestions.NoOperatorNoProblem | math_questions.c:255-257 | with no bit set no operator is ever chosen |
| MathQuestions.DraftAdditive | math_questions.c:266-277 | ADD and SUB need exactly two draws, never redraw, and draft the chosen operator |
| MathQuestions.DraftMultiplicative | math_questions.c:278-300 | MUL and DIV need two draws; the pass redraws exactly for DIV with a zero divisor |
| MathQuestions.DraftFloor | math_questions.c:301-346 | MOD and floor division redraw exactly when the divisor drawn is zero, after two draws; otherwise they use three |
| MathQuestions.DraftTrunc | math_questions.c:313-370 | REM and truncating division redraw exactly when the divisor drawn is zero; otherwise they use three draws, four when the quotient is zero and its sign is drawn |
| MathQuestions.Attempt | math_questions.c:263-376 | one pass of the `switch` needs at most four draws, consumes at least one, redraws only for a division, and drafts the chosen operator |
| MathQuestions.Retry | math_questions.c:263-376 | the drafting loop ends with a sound problem of the chosen operator |
| MathQuestions.Generate | math_questions.c:252-376 | `make_question` yields a sound problem of an enabled operator |
| MathQuestions.ProductBound | math_questions.c:33-35 | a product of two values in the multiplicative range is at most 46339^2 in magnitude |
| MathQuestions.FloorConstruction | math_questions.c:307-310 | `q * b + s * k` with `k < abs(b)` and s the divisor's sign has floor quotient q and floor remainder `s * k` |
| MathQuestions.TruncConstruction | math_questions.c:319-324 | with s the divisor's sign times the quotient's (or a drawn sign when q is 0), the truncating quotient is q and the remainder `s * k` |
| MathQuestions.SignDominates | math_questions.c:319-324 | the chosen remainder sign is that of the dividend |
| MathQuestions.AdditiveSound | math_questions.c:266-277 | ADD and SUB state the true sum or difference, with drawn operands in range and no overflow |
| MathQuestions.MultiplicativeSound | math_questions.c:278-300 | MUL states the true product; DIV never shows a zero divisor and divides exactly |
| MathQuestions.FloorSound | math_questions.c:301-346 | MOD and floor division state the floor remainder and quotient; the remainder is zero or has the divisor's sign and is smaller than it |
| MathQuestions.TruncSound | math_questions.c:313-370 | REM and truncating division state the truncating remainder and quotient; the remainder is zero or has the dividend's sign |
| MathQuestions.DraftSound | math_questions.c:265-375 | every drafted problem is sound |
| MathQuestions.QuotWithRemExample | math_questions.c:347-362 | the case the developer doubted: (-23) quot (-7) is drafted with answer 3, which is the truncating quotient (remainder -2) |
| MathQuestions.OperandReadsBack | math_questions.c:386-388 | a negative operand is shown in parentheses, and the shown digits read back as the operand |
| MathQuestions.Glyphs | math_questions.c:260-369 | the operator text is never empty; only floor and truncating division bracket the operands, with an opening and a closing glyph; without UTF-8 every glyph is ASCII |
| MathQuestions.QuestionText | math_questions.c:384-389 | the prompt starts with "What is ", ends with "? ", and shows the first operand, parenthesised when negative, right after the opening glyph |
| MathQuestions.GetAnswer | math_questions.c:392-394 | the text shown for an answer reads back as that answer |
| MathQuestions.ShownAnswerAccepted | math_questions.c:392-403 | the check accepts the shown answer and rejects it for any other answer |
| MathQuestions.TrailingCharacterFails | math_questions.c:396-403 | an accepted reply with any extra non-digit character is rejected |
| MathQuestions.CheckAnswer | math_questions.c:396-403 | a definition: the reply must read as one integer with nothing after it, equal to the answer (its properties are the lemmas around it) |
| MathQuestions.Ask | math_questions.c:252-390 | no question exactly when no problem is generated; otherwise the text shows the problem and the stored answer is the value of the expression shown |
| MathQuestions.AcceptedIffTrueValue | math_questions.c:383-403 | for a sound problem, the check of its stored answer accepts exactly the replies that read as the value of the expression shown |
| MathQuestions.RandInt32 | math_questions.c:267 | `randint` on 32-bit integers agrees with the unbounded one |
| MathQuestions.DrawAdditive | math_questions.c:266-277 | the 32-bit statements compute the additive draft, without overflow |
| MathQuestions.DrawMultiplicative | math_questions.c:278-300 | the 32-bit statements compute the multiplicative draft, without overflow |
| MathQuestions.DrawFloor | math_questions.c:301-346 | the 32-bit statements compute the floor draft, without overflow |
| MathQuestions.DrawTrunc | math_questions.c:313-370 | the 32-bit statements compute the truncating draft, without overflow |
| MathQuestions.PutRemainder | math_questions.c:309-310 | the remainder and dividend are computed in 32 bits without overflow |
| MathQuestions.DraftOnce | math_questions.c:265-375 | the `switch` computes one pass of the drafting loop |
| MathQuestions.MakeQuestion | math_questions.c:252-390 | the two do-while loops compute `make_question`'s question text and answer |
| FileQuestions.Anchored | file_questions.c:88-90 | the compiled pattern is `^(` + match + `)$` |
| FileQuestions.AnchoredFits | file_questions.c:88-90 | an accepted match fits the anchored buffer |
| FileQuestions.BuildConfig | file_questions.c:88-106 | NULL exactly when the anchored pattern does not compile; an empty file name forces `questions` to 0 |
| FileQuestions.DefaultFileConfig | file_questions.c:43-49 | without options: three questions, three attempts, the installed question file, the pattern `^(.*)$`, and exact comparison |
| FileQuestions.Threshold | file_questions.c:123-124 | the acceptance threshold is at most UINT_MAX and within one divisor of it |
| FileQuestions.Draw | file_questions.c:122-137 | the result is in [min, max) and comes from a full word below the threshold; short reads are skipped |
| FileQuestions.RandInt | file_questions.c:122-137 | the redraw loop computes `Draw` |
| FileQuestions.ShortReadAcceptedAsWritten | file_questions.c:127-133 | as written, a short read tests a stale word and can return; as intended, it redraws |
| FileQuestions.DrawAsWritten | file_questions.c:122-137 | a definition: `randint` as written, testing a stale word after a short read |
| FileQuestions.DrawAsWrittenWithoutShortReads | file_questions.c:122-137 | without short reads, the code as written and the intended code agree |
| FileQuestions.PartialBlockCount | file_questions.c:133-134 | counting the words below k * d + j that have a given residue mod d |
| FileQuestions.Unbiased | file_questions.c:123-134 | the threshold is a multiple of d, so every result has exactly UINT_MAX / d accepted words |
| FileQuestions.LowerString | file_questions.c:163-167 | case folding keeps the length |
| FileQuestions.HeaderColumns | file_questions.c:153-171 | the three column indices are distinct and within the header |
| FileQuestions.LastIndexOf | file_questions.c:159-171 | the last header name equal to the key ignoring case, or -1 exactly when there is none |
| FileQuestions.HeaderColumnsLastWins | file_questions.c:159-171 | each column is the last header name matching it ignoring case |
| FileQuestions.HeaderStep | file_questions.c:163-169 | one header name updates at most the column it names |
| FileQuestions.FindColumns | file_questions.c:153-171 | the header loop computes `HeaderColumns` of the header's fields |
| FileQuestions.FieldsStep | file_questions.c:159-162 | one `csv_read` moves one field into the part already read |
| FileQuestions.FieldsEnd | file_questions.c:160-162 | NULL from `csv_read` ends the fields of the row |
| FileQuestions.ReadRow | file_questions.c:189-203 | the row loop keeps the match, question and answer fields |
| FileQuestions.RowOf | file_questions.c:189-203 | a definition: the match, question and answer fields by column index, absent past the row's end |
| FileQuestions.Eligible | file_questions.c:204-218 | a definition: a row is offered when it has a question and an answer and its match text, empty when absent, fits the pattern |
| FileQuestions.RowStep | file_questions.c:194-202 | one field is kept exactly when its index is one of the columns |
| FileQuestions.StepRow | file_questions.c:204-229 | one row consumes draws only forward |
| FileQuestions.ScanRows | file_questions.c:184-230 | the row loop consumes draws only forward |
| FileQuestions.ReservoirInvariant | file_questions.c:179-230 | the index counts the eligible rows; a candidate is held exactly when one exists, and it is one of them |
| FileQuestions.Candidates | file_questions.c:179-230 | the question and answer of the eligible rows in file order, never more than there are rows |
| FileQuestions.FirstEligibleTaken | file_questions.c:219-225 | the first eligible row is always taken |
| FileQuestions.Generate | file_questions.c:139-252 | over lines as `csv_start` leaves them, a question is the question of a row eligible under `regexec` with the configured pattern, plus one space, and its state holds that row's answer and `ignore_case` |
| FileQuestions.NoCandidateNoQuestion | file_questions.c:235-239 | without an eligible row there is no question |
| FileQuestions.MissingColumnNoQuestion | file_questions.c:172-177 | without a question or answer column there is no question |
| FileQuestions.OfferRow | file_questions.c:189-229 | one iteration of the row loop computes `StepRow` |
| FileQuestions.MakeQuestion | file_questions.c:139-252 | the method computes `Generate` |
| FileQuestions.ScanRowsStep | file_questions.c:184-230 | one more row is one more `StepRow` |
| FileQuestions.ScanRowsExhausted | file_questions.c:184-230 | running out of entropy ends the scan with no question |
| FileQuestions.CheckAnswerModes | file_questions.c:254-263 | the check accepts the shown answer; it is exact when `ignore_case` is 0, and an accepted reply has the answer's length |
| FileQuestions.IgnoreCaseExample | file_questions.c:254-259 | "PARIS" is accepted for "Paris" only when `ignore_case` is set |
| FileQuestions.GetAnswer | file_questions.c:261-263 | a definition: the stored answer |
| FileQuestions.CheckAnswer | file_questions.c:254-259 | a definition: equality ignoring case when `ignore_case` is set, exact equality otherwise |
| PamModule.Attempts | pam_module.c:31-71 | at most `num_attempts` prompts per question; the conversation index advances once per prompt; all attempts are used when exhausted; a failure carries a non-success code |
| PamModule.Behind | pam_module.c:31-71 | prepends prompts to what an attempt sent |
| PamModule.PromptText | pam_module.c:32-33 | a definition: the question, behind `Incorrect. ` after the first attempt |
| PamModule.PromptShowsQuestion | pam_module.c:32-33 | every prompt ends with the question, and only the first attempt shows it bare |
| PamModule.FailureText | pam_module.c:78-80 | a definition: the failure message revealing the answer |
| PamModule.AttemptsPrompts | pam_module.c:31-71 | attempt j shows the question, prefixed `Incorrect. ` after the first; every reply before the last was wrong; the last is correct, a transport failure or wrong |
| PamModule.AskFrom | pam_module.c:22-100 | never more questions answered than remain |
| PamModule.AskQuestions | pam_module.c:8-103 | a failed `pam_get_item` returns its code and a NULL conversation PAM_SERVICE_ERR, both with nothing sent; never more questions answered than configured |
| PamModule.Authenticate | pam_module.c:136-153 | a failed user lookup returns its code and a failed configuration returns PAM_SERVICE_ERR, both without any conversation |
| PamModule.NoQuestionsSucceed | pam_module.c:22-102 | with `num_questions <= 0` the result is PAM_SUCCESS with no round trips |
| PamModule.DefaultArithmeticAsksNothing | math_questions.c:48-54 | the arithmetic defaults enable no operator, so `questions` is 0 and authentication succeeds with nothing sent |
| PamModule.GeneratorFailureIsServiceError | pam_module.c:24-29 | a generator failure is PAM_SERVICE_ERR |
| PamModule.AllRejectedExhausts | pam_module.c:31-71 | when every reply is wrong all attempts are used |
| PamModule.AllWrongDenies | pam_module.c:31-95 | every attempt wrong: the prompts, then one error message revealing the answer, then PAM_AUTH_ERR |
| PamModule.SuccessIffAllAnswered | pam_module.c:22-102 | the result is PAM_SUCCESS exactly when every question is answered |
| PamModule.AfterAfter | pam_module.c:22-100 | prefixes of messages and answer counts compose |
| PamModule.AskQuestionsLoop | pam_module.c:8-103 | the nested loops compute `ask_questions`' code and messages |
| PamModule.AskOne | pam_module.c:23-99 | one question either ends the session or adds one answered question |
| PamModule.AttemptLoop | pam_module.c:31-71 | the attempt loop computes `Attempts` |
| PamModule.RejectedStep | pam_module.c:31-71 | a wrong reply moves to the next attempt after one prompt |

## Left out

- The loops that never end in C end in the model. These are the operator loop with no bit set, the drafting loop, and the entropy loop. In the model they stop with no question when the finite input runs out.
- The `key=value` option parsing of both `build_config`s (math_questions.c:56-124, file_questions.c:59-86) is not modelled. It depends on libc `sscanf`, so configurations are taken as already-parsed values.
- Locale probing with `nl_langinfo` is not modelled. Its result is a boolean input of `MathQuestions.BuildConfig`.
- The regex engine is not modelled. `regcomp` success and `regexec` are function parameters; `regexec` takes the pattern text, and the row filter applies it to the configured pattern (`FileQuestions.Matcher`). As a result, the whole-string effect of the anchors is stated only on the pattern's text.
- Files and entropy are not modelled as I/O. They are input sequences: a failed `fopen` is None, the file is a sequence of lines, and the entropy is a sequence of words.
- The 4096-byte `fgets` limit, which splits longer lines, is not modelled.
- An empty questions file gives no question in the model. The C code then tokenizes an uninitialised buffer.
- malloc and `asprintf` failures, frees, leaks and the unchecked `resp` at pam_module.c:93 are not modelled, because memory ownership is out of scope. Texts are values.
- `pam_get_item` and `pam_get_user` are inputs of their result codes.
- `pam_sm_setcred` and `pam_sm_acct_mgmt` are not modelled; they only return success.
- pam_math.c, math_questions.h and asprintf.c are not part of this model.
- Decimal.ParseInt: `%d` overflow (undefined in C) is not modelled, because numbers are unbounded.
- Texts are sequences of characters, not UTF-8 bytes.
- The full reach of an operand range wider than 32768 values is not characterised value by value; only its cap at `min + 32767` is stated (`MathQuestions.UniformReach`, `MathQuestions.WideProductReach`).
- Uniformity is stated as counting accepted words (`FileQuestions.Unbiased`), not as a probability distribution.
- FileQuestions.ReservoirInvariant: states that the held row is one of the eligible rows. The replacement rule (take row k exactly when the draw over [0, k) is 0) is the definition of `StepRow`, and no lemma restates it over the whole scan.
- The `index` of eligible rows is unbounded, where the C `int` would overflow after 2^31 - 1 eligible rows.

## Findings

| source | as written | input that shows it | evidently intended | confidence | as-written member | corrected member |
|---|---|---|---|---|---|---|
| csv.c:32 | `++buf` steps the pointer to the caller's cursor, so a quoted field is read through the memory after the caller's variable and the cursor itself never moves | the row `"x"` with the cursor at 0 and the next slot holding the same pointer: returns `x"` and the cursor stays on the opening quote | `++*buf`: skip the opening quote (or the second quote of a doubled pair), return `x`, end the row | high, not executed | Csv.QuotedFieldCounterexample | Csv.ReadField |
| file_questions.c:127-133 | after a short read only a message is printed, and the possibly uninitialised `r` is still tested and returned | one short read with the stale word 0 and the range [0, 2): returns 0 | draw again after a short read | high, not executed | FileQuestions.ShortReadAcceptedAsWritten | FileQuestions.Draw |
