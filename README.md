# Gravity-code browser tools in Dafny

This project models the logic beneath seven small browser tools of the
Gravity-code collection, and proves what each of them promises:

- the **password generator** (`PasswordGenerator` class): character pool,
  the loop that maps random words onto it, the strength score and label,
  statistics, and the 50-entry newest-first history;
- the **text case converter**: the upper, lower, title and sentence case
  transforms, the word count, the preview, and the 50-entry undo history
  that `convertText`, `undoAction`, `clearText`, `goHome` and paste work on;
- the **word counter**: the word, character, sentence and paragraph counts,
  the reading time and its `Hh Mm` display, and the Tab-key splice;
- the **Base64 tool**: `btoa(unescape(encodeURIComponent(text)))` as the
  Base64 of section 4 of RFC 4648 over the UTF-8 bytes of section 3 of
  RFC 3629, the decoder's pattern check and `atob` (the forgiving-base64
  decode of the WHATWG HTML standard), the strict UTF-8 read-back, and the
  20-entry history with 50-character previews;
- **image tools**: which selected files are taken in (MIME prefix, 10 MiB,
  20 files), the pending records they become, removing and clearing them,
  and the download names and selection;
- the **expense tracker**: the budget panel's decision, the list total, the
  per-date and per-type chart data, the edit summary and the POST/PUT
  choice;
- the **landing-page search**: which tool cards the search box shows.

Files: `common.dfy` (Option, Result), `js_string.dfy` (the JavaScript
string built-ins the tools use), `lists.dfy` (filter and the capped
history updates), `utf8.dfy`, `base64_codec.dfy`, and one file per tool:
`password_generator.dfy`, `text_case.dfy`, `word_counter.dfy`,
`base64_tool.dfy`, `image_tools.dfy`, `expense_tracker.dfy`,
`tool_search.dfy`.

State the source updates in place is a class whose methods say what changes:
`PasswordGen.PasswordGenerator`, `TextCase.CaseConverter`,
`Base64Tool.Base64Page`, `ImageTools.Workspace` and
`ExpenseTracker.BudgetPanel`. Loops in the source are methods with loops:
the password loop, the `handleFiles` append, the `renderCharts` pass and
the expense total. Each is proved against a specification function whose
properties are lemmas. The pure transforms are functions.

Inputs the page takes from the browser are parameters:
- the random words of `crypto.getRandomValues`;
- ids made from the clock;
- the answer to a `confirm` dialog;
- whether the clipboard accepted a write;
- the clipboard text;
- the parsed amounts.

## Model

| member | source | states |
|---|---|---|
| PasswordGen.PoolMembers | Password-generator/password-gen.js:197-203 | a character is in the pool exactly when it belongs to an enabled set; the pool is empty exactly when no set is enabled |
| PasswordGen.PasswordGenerator.GeneratePassword | Password-generator/password-gen.js:197-225 | an empty pool falls back to lowercase and turns lowercase on; the password has `settings.length` characters, character i being `pool[r[i] mod |pool|]`; `generated` grows by one and `strengthSum` by the percentage; the label is the one for the new password; the history is unchanged |
| PasswordGen.GeneratedFromEnabledSets | Password-generator/password-gen.js:197-218 | every generated character belongs to a set enabled in the settings used |
| PasswordGen.PasswordGenerator.UpdateSetting | Password-generator/password-gen.js:184-195 | the key is set to the value, and when that leaves no set enabled lowercase is turned back on, so at least one set is always enabled |
| PasswordGen.PasswordGenerator.UpdateLength | Password-generator/password-gen.js:177-182 | only the length setting changes |
| PasswordGen.StrengthScore | Password-generator/password-gen.js:237-253 | the score is clamped to 0..7 and equals the raw score when that is already in range |
| PasswordGen.RawScoreInRange | Password-generator/password-gen.js:241-253 | the length bonus (3/2/1/0 at 20/16/12), one per class present, minus one when fewer than half the characters are distinct, always lies in 0..7, so the clamp never changes it |
| PasswordGen.Percentage | Password-generator/password-gen.js:254 | the percentage is at most 100 and not negative for a non-negative score |
| PasswordGen.LabelByScore | Password-generator/password-gen.js:256-274 | the 85/70/50 percentage thresholds pick Very Strong, Strong, Medium or Weak exactly at scores 6, 5 and 4 |
| PasswordGen.StrengthColorIgnoresCase | Password-generator/password-gen.js:392-401 | the colour of a strength text does not depend on its letter case |
| PasswordGen.AverageStrengthRange | Password-generator/password-gen.js:453-461 | the average is 0 before the first generation and a percentage in 0..100 after |
| PasswordGen.PasswordGenerator.constructor | Password-generator/password-gen.js:2-8 | default settings, empty history, and one password generated: each of its default-length characters drawn from the default pool by `random[i] % poolSize`, its strength label shown and its percentage counted once |
| PasswordGen.PasswordGenerator.CopyPassword | Password-generator/password-gen.js:285-295 | `copied` grows by one only when there is a password and the clipboard accepted it; nothing else changes |
| PasswordGen.PasswordGenerator.SavePassword | Password-generator/password-gen.js:302-325 | no-op on an empty password; otherwise the entry is pushed to the front, the 51st is dropped, `saved` grows by one |
| PasswordGen.SaveKeepsNewestFirst | Password-generator/password-gen.js:314-315 | after saving, the new entry is first, the older entries follow in order with at most the oldest dropped, and there are at most 50 |
| PasswordGen.PasswordGenerator.DeleteHistoryItem | Password-generator/password-gen.js:403-407 | the history becomes the entries whose id differs, in order |
| PasswordGen.DeleteRemovesExactly | Password-generator/password-gen.js:403-404 | an entry survives deletion exactly when it was there and has another id; deletion distributes over concatenation, so order is kept |
| PasswordGen.PasswordGenerator.ClearHistoryConfirm | Password-generator/password-gen.js:409-417 | a confirmed clear of a non-empty history empties it; otherwise nothing changes |
| TextCase.TitleCaseSpec | Text-Case-Converter/text-case.js:125-127 | title case is the lowercased text with exactly the word characters at a word boundary uppercased |
| TextCase.TitleCaseIdempotent | Text-Case-Converter/text-case.js:125-127 | title-casing twice equals title-casing once |
| TextCase.StateAfterMeaning | Text-Case-Converter/text-case.js:128-130 | the scan state says whether the prefix is all whitespace, ends in `.`/`!`/`?`, or ends in one of those followed by whitespace |
| TextCase.SentenceCaseSpec | Text-Case-Converter/text-case.js:128-130 | sentence case is the lowercased text with exactly the word characters that follow leading whitespace, or `.`/`!`/`?` plus whitespace, uppercased |
| TextCase.SentenceCaseIdempotent | Text-Case-Converter/text-case.js:128-130 | sentence-casing twice equals sentence-casing once |
| TextCase.ConvertOnlyChangesCase | Text-Case-Converter/text-case.js:122-131 | every converter keeps the length and the lowercased text |
| TextCase.ConvertKeepsBlank | Text-Case-Converter/text-case.js:122-131 | a converted text is blank exactly when the original was |
| JsString.ToUpper | Text-Case-Converter/text-case.js:123 | uppercase keeps the length and maps every character through the ASCII upper-case table |
| JsString.ToLower | Text-Case-Converter/text-case.js:124 | lowercase keeps the length and maps every character through the ASCII lower-case table |
| JsString.UpperIdempotent | Text-Case-Converter/text-case.js:123 | uppercasing twice equals uppercasing once |
| JsString.LowerIdempotent | Text-Case-Converter/text-case.js:124 | lowercasing twice equals lowercasing once |
| TextCase.Statistics | Text-Case-Converter/text-case.js:134-136 | the character count is the length; the word count is the number of maximal non-whitespace runs, 0 exactly for blank text |
| TextCase.Preview | Text-Case-Converter/text-case.js:143-151 | the placeholder for blank text, the text itself up to 150 characters, else its first 150 characters and `...` |
| TextCase.CaseConverter.SaveToHistory | Text-Case-Converter/text-case.js:166-180 | the entry is appended and the oldest is dropped past 50 |
| TextCase.CaseConverter.ConvertText | Text-Case-Converter/text-case.js:183-206 | blank text changes nothing; otherwise the current text and case are saved first, and the text and case are replaced only when the case type has a converter |
| TextCase.CaseConverter.UndoAction | Text-Case-Converter/text-case.js:268-290 | empty history changes nothing; otherwise the last entry is popped and its text restored, with its case unless the text is blank |
| TextCase.CaseConverter.ConvertThenUndo | Text-Case-Converter/text-case.js:183-290 | undo right after a conversion restores the text, the case and the history (less its oldest entry when it was full) |
| TextCase.CaseConverter.ClearText | Text-Case-Converter/text-case.js:256-265 | non-blank text is saved; the text empties and the case returns to original |
| TextCase.CaseConverter.GoHome | Text-Case-Converter/text-case.js:88-119 | non-blank text is saved, then the welcome text is shown with the original case and saved too |
| TextCase.CaseConverter.Paste | Text-Case-Converter/text-case.js:231-253 | the clipboard text is spliced in at the cursor, the cursor moves past it, the case resets and the new text is saved; a failed read changes nothing |
| TextCase.CaseConverter.ResetActiveButtons | Text-Case-Converter/text-case.js:299-305 | the case type becomes `original` |
| TextCase.CaseConverter.ShowPreview | Text-Case-Converter/text-case.js:143-163 | the case type is updated only for non-blank text |
| TextCase.CaseConverter.Input | Text-Case-Converter/text-case.js:320-323 | typing replaces the text and keeps the case and the history |
| TextCase.CaseConverter.constructor | Text-Case-Converter/text-case.js:46-85 | the welcome text in the original case, with an empty history |
| WordCounter.CountWordsIsRuns | Word-counter/word-counter.js:87-90 | the word count is the number of maximal runs of non-whitespace characters, 0 exactly for blank text |
| WordCounter.TrimKeepsWordRuns | Word-counter/word-counter.js:88-89 | trimming leaves the number of non-whitespace runs unchanged |
| WordCounter.NonBlankSplitCount | Word-counter/word-counter.js:103-116 | splitting on separator runs and dropping blank pieces leaves as many pieces as there are separator-free stretches holding text |
| WordCounter.CountSentencesIsRuns | Word-counter/word-counter.js:103-108 | the sentence count is the number of stretches between runs of `.`, `!`, `?` that hold text |
| WordCounter.CountParagraphsIsRuns | Word-counter/word-counter.js:111-116 | the paragraph count is the number of stretches between runs of newlines that hold text |
| WordCounter.BlankCountsZero | Word-counter/word-counter.js:87-123 | blank text has no words, sentences or paragraphs and a zero reading time |
| WordCounter.RemoveSpaces | Word-counter/word-counter.js:98-100 | no whitespace is left |
| WordCounter.CountNoSpace | Word-counter/word-counter.js:93-100 | the count without spaces is the length minus the number of whitespace characters, so at most the length |
| WordCounter.MinutesFor | Word-counter/word-counter.js:119-123 | the minutes are the ceiling of words / 200, 0 exactly for no words |
| WordCounter.ReadingMinutesZero | Word-counter/word-counter.js:119-123 | the reading time is 0 exactly for blank text |
| WordCounter.FormatReadingTimeReadsBack | Word-counter/word-counter.js:137-146 | the display `0m`, `Nm` or `Hh Mm` reads back to the minutes, so H * 60 + M is the number of minutes |
| WordCounter.InsertIndent | Word-counter/word-counter.js:289-301 | the selection becomes two spaces, the text before and after is unchanged, the cursor lands at start + 2 |
| Utf8.DecodeEncode | Base64-Encode-Decode/base64.js:74-98 | reading back the UTF-8 bytes of a text gives the text |
| Utf8.EncodeDecode | Base64-Encode-Decode/base64.js:98 | a successful read-back was given exactly the UTF-8 bytes of its result |
| Utf8.DecodeRefusesStrayByte | Base64-Encode-Decode/base64.js:98 | bytes starting with a continuation byte, or with 0xC0 or 0xC1, are refused whatever follows |
| Utf8.DecodeRefusesTruncated | Base64-Encode-Decode/base64.js:98 | a multi-byte lead followed by fewer bytes than it announces is refused |
| Utf8.DecodeRefusesSurrogate | Base64-Encode-Decode/base64.js:98 | every three-byte form of a UTF-16 surrogate is refused whatever follows |
| Utf8.DecodeRefusesOverlong | Base64-Encode-Decode/base64.js:98 | every three-byte form of a value below U+0800 is refused whatever follows |
| Base64Codec.SextetBijection | Base64-Encode-Decode/base64.js:74 | the 64-character alphabet and the sextet values correspond one to one |
| Base64Codec.EncodeUnpadded | Base64-Encode-Decode/base64.js:74 | the output is in the alphabet and 4 characters per 3 bytes, plus 2 or 3 for a tail |
| Base64Codec.BtoaLength | Base64-Encode-Decode/base64.js:74 | the padded output has 4 * ceil(n / 3) characters, a multiple of 4 |
| Base64Codec.Atob | Base64-Encode-Decode/base64.js:98 | after dropping ASCII whitespace and up to two trailing `=`, input is refused exactly when a character is outside the alphabet or the length is 1 mod 4 |
| Base64Codec.DecodeEncodeUnpadded | Base64-Encode-Decode/base64.js:74-98 | decoding the unpadded encoding gives the bytes back |
| Base64Codec.AtobBtoa | Base64-Encode-Decode/base64.js:74-98 | `atob(btoa(bytes))` gives the bytes back |
| Base64Codec.AtobRefusesSingle | Base64-Encode-Decode/base64.js:98 | every single non-whitespace character is refused |
| Base64Codec.AtobRefusesForeign | Base64-Encode-Decode/base64.js:98 | text holding a character that is not in the alphabet, not whitespace and not `=` is refused, wherever it stands |
| Base64Tool.Utf8ToBase64 | Base64-Encode-Decode/base64.js:66-74 | empty text is refused with the warning, anything else encodes |
| Base64Tool.Base64ToUtf8 | Base64-Encode-Decode/base64.js:85-98 | the empty-input warning comes exactly for blank input; a success passed the pattern on the trimmed text |
| Base64Tool.BtoaMatchesPattern | Base64-Encode-Decode/base64.js:74-94 | every encoder output passes `^[A-Za-z0-9+/]*={0,2}$` |
| Base64Tool.TrimKeepsBtoa | Base64-Encode-Decode/base64.js:74-86 | encoder output is unchanged by the decoder's trim |
| Base64Tool.EncodeThenDecode | Base64-Encode-Decode/base64.js:66-107 | for non-empty text, encoding succeeds, passes the pattern, and decoding the result gives the text back |
| Base64Tool.DecodedReencodes | Base64-Encode-Decode/base64.js:86-98 | a successful decode read exactly the UTF-8 bytes of the text it returned |
| Base64Tool.DecodeRefusesInnerPadding | Base64-Encode-Decode/base64.js:94-95 | an `=` followed by any other character fails validation |
| Base64Tool.DecodeRefusesDangling | Base64-Encode-Decode/base64.js:94-98 | alphabet text of length 1 mod 4 passes the pattern but is refused by `atob` |
| Base64Tool.MakeItem | Base64-Encode-Decode/base64.js:168-177 | the entry keeps id, action and the full strings exactly; each preview is the text itself up to 50 characters, otherwise its first 50 characters and `...` |
| JsString.Ellipsize | Base64-Encode-Decode/base64.js:171-172 | text of at most 50 characters is kept, longer text becomes its first 50 characters and `...` |
| Base64Tool.FindItem | Base64-Encode-Decode/base64.js:219 | none exactly when no entry has the id; otherwise the first entry with the id, as `find` returns |
| Base64Tool.Base64Page.AddToHistory | Base64-Encode-Decode/base64.js:168-184 | the entry goes first and the 21st is dropped, so at most 20 remain |
| Base64Tool.Base64Page.EncodeText | Base64-Encode-Decode/base64.js:66-83 | on success the text becomes the encoding and the conversion is recorded; empty text changes nothing |
| Base64Tool.Base64Page.DecodeText | Base64-Encode-Decode/base64.js:85-107 | on success the text becomes the decoded text and the conversion is recorded with the trimmed input; any refusal changes neither text nor history |
| Base64Tool.EncodeDecodeOnPage | Base64-Encode-Decode/base64.js:66-107 | encoding then decoding on the page restores the text and records both conversions, newest first |
| Base64Tool.Base64Page.LoadHistoryItem | Base64-Encode-Decode/base64.js:218-225 | a known id puts that entry's full output in the text; an unknown id changes nothing |
| Base64Tool.Base64Page.ClearText | Base64-Encode-Decode/base64.js:124-131 | the text becomes empty; the history is untouched |
| Base64Tool.Base64Page.ClearHistoryConfirm | Base64-Encode-Decode/base64.js:227-235 | a confirmed clear of a non-empty history empties it; otherwise nothing changes |
| ImageTools.HandleIntake | image-tools/image-tools.js:404-425 | nothing is taken exactly when no file is an image; at most 20 are taken, the list is cut exactly when more than 20 were valid, and the oversized count plus the valid count is the image count |
| ImageTools.IntakeSpec | image-tools/image-tools.js:406-425 | the accepted files are images within 10 MiB, the first min(20, n) of all such files in their original order |
| ImageTools.IntakeMembers | image-tools/image-tools.js:406-419 | below the limit, a file is taken exactly when it is an image within the size limit |
| ImageTools.NewRecord | image-tools/image-tools.js:431-445 | a record starts pending with result size and ratio 0 and the file's name, size and type |
| ImageTools.Workspace.HandleFiles | image-tools/image-tools.js:404-462 | one pending record per accepted file is appended in order; nothing is added when no file is an image |
| ImageTools.Workspace.RemoveImage | image-tools/image-tools.js:605-608 | the records become those with another id, in order |
| ImageTools.RemoveImageSpec | image-tools/image-tools.js:605-606 | a record survives exactly when it has another id; the kept and the removed records together are the old list |
| ImageTools.Workspace.ClearAllImages | image-tools/image-tools.js:611-620 | a confirmed clear of a non-empty list empties the uploads and the results; otherwise nothing changes |
| ImageTools.FileNameParts | image-tools/image-tools.js:870-901 | a download name is `compressed_` or `resized_` as the mode or status says, followed by the original name unchanged |
| ImageTools.FirstWithId | image-tools/image-tools.js:890 | the position `find` stops at: no earlier image has the id, and the image there has it unless the list is exhausted |
| ImageTools.DownloadById | image-tools/image-tools.js:889-901 | refused exactly when the first image with the id is missing or pending; otherwise the name of that image's download |
| ImageTools.DownloadAll | image-tools/image-tools.js:911-952 | the processed results, all of them, are used exactly when there are any; otherwise a non-empty selection of uploads or the error |
| ImageTools.DownloadAllSelection | image-tools/image-tools.js:912-918 | without results, exactly the uploads that are not pending are downloaded, in their upload order (the selection of a concatenation is the concatenation of the selections), and the error comes exactly when all are pending |
| ExpenseTracker.BudgetViewOf | E-trax-files/script.js:324-331 | the panel is cleared exactly for a NaN or non-positive budget; otherwise percent × budget = spent × 100 and the bar width is min(percent, 100) |
| ExpenseTracker.BudgetStatusSpec | E-trax-files/script.js:330-359 | over budget exactly when spent >= budget, by spent - budget; approaching exactly from 80% up to the budget; on track below 80%; the bar is 100 when over and the percentage otherwise |
| ExpenseTracker.AcceptsBudgetInput | E-trax-files/script.js:362-366 | the budget is sent exactly when it parses to a positive number |
| ExpenseTracker.AcceptedBudgetIsShown | E-trax-files/script.js:324-325 | the save button accepts exactly the inputs for which the panel would show a bar, whatever has been spent |
| ExpenseTracker.BudgetPanel.UpdateBudgetUI | E-trax-files/script.js:324-328 | the panel shows the view of the budget and spending, and clearing it resets the current amount to 0 |
| ExpenseTracker.BudgetPanel.ClearBudgetUI | E-trax-files/script.js:315-322 | the panel is cleared and the current amount is 0 |
| ExpenseTracker.BudgetPanel.ApplyFetchedBudget | E-trax-files/script.js:299-309 | the fetched amount is stored (or reset to 0 when it clears the panel) and the panel shows it against the total of the expenses |
| ExpenseTracker.ListTotal | E-trax-files/script.js:429-431 | the loop's total is the sum of the amounts, NaN counting as 0 |
| ExpenseTracker.ChartData | E-trax-files/script.js:600-608 | the two objects the loop builds are the per-date and the per-type tallies |
| ExpenseTracker.TallyOfKeys | E-trax-files/script.js:604-608 | each key appears once, and the keys are exactly the values the field takes |
| ExpenseTracker.TallyOfTotals | E-trax-files/script.js:604-608 | each entry is the sum of the amounts of the expenses with that key |
| ExpenseTracker.ChartTotalsMatchListTotal | E-trax-files/script.js:604-608 | the per-date entries, and likewise the per-type entries, add up to the list total |
| ExpenseTracker.FormatChanges | E-trax-files/script.js:583-590 | a name line exactly when the names differ, then an amount line exactly when the amounts differ, and the generic line exactly when neither does |
| ExpenseTracker.SubmitRequest | E-trax-files/script.js:225-245 | nothing without a user; PUT with the editor's name exactly when an expense is being edited, POST otherwise; the text fields are trimmed |
| ExpenseTracker.Endpoint | E-trax-files/script.js:242 | `/update/<id>` after the base URL when editing, `/submit` otherwise |
| ToolSearch.Visibility | script.js:22-32 | one flag per card, each decided by that card and the term only |
| ToolSearch.MatchesSpec | script.js:20-31 | a card is shown exactly when the lowercased term occurs in its lowercased title, description or tag |
| ToolSearch.EmptyTermShowsAll | script.js:27-31 | an empty term shows every card |
| ToolSearch.MissingElementMatchesOnlyEmpty | script.js:23-25 | a card missing all three elements is shown only for the empty term |
| ToolSearch.VisibilityPointwise | script.js:22-32 | the same card is shown or hidden alike whatever the other cards are |
| ToolSearch.CaseInsensitive | script.js:20-25 | changing the ASCII case of the term or of the card's text does not change whether it is shown |
| JsString.TrimIsInfix | Word-counter/word-counter.js:88-89 | `trim` removes only leading and trailing whitespace and leaves text that neither starts nor ends with whitespace |
| JsString.BlankIffAllSpace | Word-counter/word-counter.js:88 | `!text.trim()` holds exactly for text made only of whitespace |
| JsString.Split | Word-counter/word-counter.js:89 | at least one piece, none containing a separator |
| JsString.IncludesIffOccurs | script.js:27-29 | `includes` finds the term exactly when it occurs at some position |
| JsString.EmptyIncludesOnlyEmpty | script.js:23-25 | the empty text includes only the empty term |
| JsString.LowerOfUpper | Text-Case-Converter/text-case.js:123-124 | lowercasing forgets an earlier uppercasing and is idempotent |
| JsString.ParseDecimalString | Word-counter/word-counter.js:141-145 | the decimal rendering of a number reads back to the number |
| Lists.PushFrontCappedSpec | Base64-Encode-Decode/base64.js:179-180 | unshift then pop past the cap: the entry first, the older entries after it, length at most the cap |
| Lists.PushBackCappedSpec | Text-Case-Converter/text-case.js:167-176 | push then shift past the cap: the entry last, the newer entries before it, length at most the cap |
| Lists.FilterMembers | image-tools/image-tools.js:606 | an element is kept exactly when it was there and passes |
| Lists.FilterFilter | image-tools/image-tools.js:406-419 | two filters in a row are one filter on both conditions |

## Left out

- Display only: HTML, toasts, themes, the mobile menu, textarea sizing, timers, `toLocaleString`/`toFixed` and `Math.round` of displayed percentages, `formatBytes`/`formatFileSize`, Chart.js.
- Persistence: `localStorage` loads and saves. Every page starts from the state its constructor states. Stored Base64 history that is not valid JSON is read as empty; that load is not modelled.
- Clipboard: copying is a flag saying whether the write succeeded; the password history's copy button and the entry click are not modelled.
- The password visibility toggle, `toggleHistoryPanel`, `toggleTheme` and the empty export/import stubs carry no logic.
- PasswordGen.PasswordGenerator.GeneratePassword: the interim average written by `updateStrengthMeter` (password-gen.js:282) is overwritten at once by `updateStats`; only the latter is modelled (AverageStrength).
- PasswordGen.StrengthColorIgnoresCase: the colour table itself is `ColorFor`; only case-insensitivity of the lookup is proved.
- Strings are sequences of Unicode scalar values. JavaScript lengths count UTF-16 code units, so a character outside the Basic Multilingual Plane counts once here and twice in the page: the 150- and 50-character previews and `countCharacters` differ on such text.
- Case mapping covers ASCII letters only, as does `\w`; `\s` and `trim` use the full ECMAScript whitespace set.
- `encodeURIComponent` throws on a lone surrogate; Dafny characters cannot be surrogates, so the encoder's catch branch is unreachable in the model.
- Text case `initializeApp`'s loading delay and the keyboard shortcuts that only call modelled operations.
- Image tools: `FileReader`, data URLs, image dimensions, the aspect-ratio handlers and the order in which reads complete. The model appends the records in the order of the accepted files.
- The compress and resize pipeline is called from image-tools.js but not defined in it, so the `Compressed`/`Resized` statuses and the processed results are taken as given.
- ImageTools.HandleIntake: the alert texts are not modelled; what they report is the oversized count and the truncation flag.
- Expense amounts are exact reals, not IEEE doubles. `parseFloat`'s reading of a string is taken as a given number-or-NaN value.
- `fetch`, Firebase authentication and every server round trip are left out. `ApplyFetchedBudget` is the step after both fetches succeed; a failed fetch is `ClearBudgetUI`.
- ExpenseTracker.ChartData: JavaScript enumerates integer-like keys (such as a type named `42`) before the others; the model keeps plain insertion order. A key naming an inherited property such as `constructor` is treated like any other key.
- ExpenseTracker.FormatChanges: amounts are compared as strings; a number and a string that look alike compare unequal in the page.
- The landing page's theme toggle, mobile menu and keyboard shortcut are display only.
