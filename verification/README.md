# Thrive Nation: migration splitters and page logic in Dafny

This project models the pure logic of the Thrive Nation community site: its
React pages and its migration scripts. It does not model the rendering or the
hosted backend. It covers:

- **Migration statement splitters.** Three scripts turn a migration file into
  SQL statements that are sent one at a time:
  - `applyAllMigrations.ts` strips comments and keeps `CREATE FUNCTION … $$ … $$`
    bodies together by counting `$$` (module `ParitySplitter`);
  - `applyMigrationFixed.ts` leaves function mode only on a line that is
    exactly `$$;` (module `LiteralSplitter`);
  - `applyMigration.ts` cuts at every `;` (module `NaiveSplitter`).

  Comment stripping is in `SqlComments`. The grouping of lines into
  statements, shared by the two line-folding splitters, is in `Statements`.
  The choice and order of migration files is in `MigrationFiles`. Worked
  examples on one PL/pgSQL trigger function are in `SplitterExamples`.
- **Profile completion guide** (`ProfileCompletion`). This is the ten-item
  checklist, the score, the missing items, the percentage, and the colour,
  message, emoji and sections that follow from it.
- **Profile page** (`ProfileForm`). This is the validation of username,
  website, phone and bio, the per-field edit state, the avatar checks,
  submit, load, cancel and the avatar storage path.
- **Moderation dashboard** (`Moderation`). This is the status tabs and their
  counts, status colours and labels, the Resolve/Dismiss actions and the
  review update.
- **Post card** (`PostItem`). This is the relative creation time and the
  engagement counts.
- **Comment** (`CommentItem`). This is the reply creation and its guard, the
  reply box, the reply count and the report title.
- **Report dialog** (`ReportModal`), **community form** (`CreateCommunity`)
  and **post form** (`CreatePost`). These are their guards, the payloads they
  send and the storage paths of their uploads.

Shared pieces:

- `Common` holds `Option` and `Result`.
- `Text` holds the ECMAScript string operations the code uses: `trim`, the
  `\s` class, `split`, `startsWith`/`endsWith`, capitalisation and file
  extensions.
- `Decimal` renders numbers as a template literal does, and reads them back.
- `Lists` holds `filter` and `map` on sequences.
- `Types` holds the profile and report records.

The clock is a parameter: `Date.now()` is a whole number of milliseconds.
Answers from the storage service are parameters too: an upload error and a
public-URL function. Every operation is a total function on immutable data.

## Model

| member | source | states |
|---|---|---|
| MigrationFiles.Migrations | scripts/applyAllMigrations.ts:10-11 | exactly the `.sql` names are kept, each as often as it was listed |
| MigrationFiles.MigrationsCount | scripts/applyAllMigrations.ts:11 | a name occurs in the result as often as in the listing if it ends in `.sql`, otherwise never |
| MigrationFiles.Sort | scripts/applyAllMigrations.ts:12 | `sort()` returns the names in ascending code-point order, as a permutation of its input |
| MigrationFiles.Insert | scripts/applyAllMigrations.ts:12 | inserting into a sorted list keeps it sorted and adds exactly one copy of the name |
| MigrationFiles.LexLeTotal | scripts/applyAllMigrations.ts:12 | any two names are comparable in the order `sort()` uses |
| MigrationFiles.LexLeTransitive | scripts/applyAllMigrations.ts:12 | that order is transitive |
| MigrationFiles.LexLeAntisymmetric | scripts/applyAllMigrations.ts:12 | two names that are each before the other are equal |
| MigrationFiles.Schedule | scripts/applyAllMigrations.ts:10-12 | the files applied are exactly the `.sql` files of the directory, in ascending order |
| MigrationFiles.SortedPermutationIsUnique | scripts/applyAllMigrations.ts:12 | two sorted arrangements of the same names are identical |
| MigrationFiles.ScheduleIgnoresListingOrder | scripts/applyAllMigrations.ts:10-12 | the order in which the directory lists files does not change the schedule |
| MigrationFiles.MigrationsPermute | scripts/applyAllMigrations.ts:11 | filtering a permuted listing gives a permutation of the filtered listing |
| SqlComments.FindClose | scripts/applyAllMigrations.ts:24 | finds the first `*/` at or after a position, or reports that there is none |
| SqlComments.StripBlockComments | scripts/applyAllMigrations.ts:24 | block-comment removal never lengthens the text, and text with no `*/` anywhere is unchanged, an unclosed `/*` included |
| SqlComments.NoOpenerKeepsText | scripts/applyAllMigrations.ts:24 | text without `/*` is unchanged by block-comment removal |
| SqlComments.BlockCommentRemoved | scripts/applyAllMigrations.ts:24 | a comment `/* … */` is removed up to the first `*/` and the text after it is processed the same way |
| SqlComments.FirstCloseAfterComment | scripts/applyAllMigrations.ts:24 | the lazy `[\s\S]*?` stops at the first `*/` after the opener |
| SqlComments.FromLineEnd | scripts/applyAllMigrations.ts:25 | `.*$` in multiline mode stops just before the first line terminator |
| SqlComments.StripLineComments | scripts/applyAllMigrations.ts:25 | line-comment removal never lengthens the text and keeps every line terminator, so no two lines are joined |
| SqlComments.NoDashesRemain | scripts/applyAllMigrations.ts:25 | no `--` is left after line-comment removal |
| SqlComments.NoDashesKeepsText | scripts/applyAllMigrations.ts:25 | text without `--` is unchanged by line-comment removal |
| SqlComments.LineCommentRemoved | scripts/applyAllMigrations.ts:25 | `--` and the rest of its line are removed, the line terminator is kept, and the next lines are processed the same way |
| SqlComments.FromLineEndSkipsLine | scripts/applyAllMigrations.ts:25 | what follows a line comment begins at its line terminator |
| SqlComments.Clean | scripts/applyAllMigrations.ts:23-26 | the cleaned text has no whitespace at either end and contains no `--` |
| SqlComments.CommentFreeTextIsClean | scripts/applyAllMigrations.ts:23-26 | trimmed text without comment markers passes through cleaning unchanged |
| SqlComments.NoMarkerCharacters | scripts/applyAllMigrations.ts:24-25 | text without `/` has no block-comment opener, and text without `-` has no line-comment marker |
| Statements.Statement | scripts/applyAllMigrations.ts:64 | the emitted statement `currentStatement.trim()` is trimmed, and empty exactly when the collected lines are blank |
| Statements.RenderAppend | scripts/applyAllMigrations.ts:55 | appending lines one `line + '\n'` at a time renders two runs as their concatenation |
| Statements.RenderSplit | scripts/applyAllMigrations.ts:39 | the lines of `split('\n')`, each re-terminated, rebuild the text plus one newline |
| Statements.RenderIsJoin | scripts/applyAllMigrations.ts:55 | the accumulator equals the lines joined by newlines, plus a final newline |
| Statements.TerminatorNotBlank | scripts/applyAllMigrations.ts:57 | a line whose trimmed form ends in `;` is not blank |
| Statements.NonBlankLineMakesStatement | scripts/applyAllMigrations.ts:57-64 | a group holding a non-blank line yields a non-empty statement |
| Statements.FinishPartitions | scripts/applyAllMigrations.ts:41-74 | the final groups cover the lines in order, only a blank tail is dropped, and every group yields a non-empty statement |
| Statements.CutIsUnique | scripts/applyAllMigrations.ts:57-67 | there is only one way to cut lines after each terminator line |
| Statements.FirstGroupEndsFirst | scripts/applyAllMigrations.ts:57-67 | the first group runs up to and including the first terminator line, and no earlier line is one |
| Statements.CutExtend | scripts/applyAllMigrations.ts:57-67 | one more line either closes the pending group, if it is a terminator, or joins it |
| ParitySplitter.DollarQuotes | scripts/applyAllMigrations.ts:50-53 | the `$$` count of a line, as non-overlapping matches; at most half the length, and zero without `$` |
| ParitySplitter.DollarQuotesDelimiter | scripts/applyAllMigrations.ts:50-53 | each `$$` after text without `$` counts exactly one, and counting goes on after it |
| ParitySplitter.DollarQuotesSkipPlainPrefix | scripts/applyAllMigrations.ts:50 | text without `$` in front of a line adds no matches |
| ParitySplitter.StartsFunction | scripts/applyAllMigrations.ts:45-47 | a line that begins with `CREATE FUNCTION` or `CREATE OR REPLACE FUNCTION` switches function mode on; a line without an upper-case `C` never does, since the test is case-sensitive |
| ParitySplitter.KeywordAnywhere | scripts/applyAllMigrations.ts:45-47 | either keyword is found wherever it sits in the line |
| ParitySplitter.Emit | scripts/applyAllMigrations.ts:63-67 | emitting pushes the pending lines plus this line as one statement and resets the accumulator, the mode and the counter |
| ParitySplitter.Extend | scripts/applyAllMigrations.ts:55 | a line that closes nothing is appended to the pending statement |
| ParitySplitter.Step | scripts/applyAllMigrations.ts:41-68 | each line joins exactly one statement; a statement ends exactly when the line ends in `;` and, in function mode, the `$$` count is even; the counter and the mode reset only then |
| ParitySplitter.Run | scripts/applyAllMigrations.ts:41-69 | the fold over the lines accounts for every line, in order |
| ParitySplitter.StepKeepsValid | scripts/applyAllMigrations.ts:45-67 | every emitted group ends in a line whose trimmed form ends in `;` |
| ParitySplitter.RunKeepsValid | scripts/applyAllMigrations.ts:41-69 | that invariant holds after any number of lines |
| ParitySplitter.RunFromStart | scripts/applyAllMigrations.ts:41-69 | the emitted groups followed by the pending lines are exactly the input lines |
| ParitySplitter.RunAppend | scripts/applyAllMigrations.ts:41-69 | folding two runs of lines is folding the first, then the second |
| ParitySplitter.Groups | scripts/applyAllMigrations.ts:41-74 | the final groups are a prefix of the lines, only a blank tail is left out, and each group yields a non-empty statement |
| ParitySplitter.SplitStatements | scripts/applyAllMigrations.ts:23-74 | a file that cleans to nothing has no statements, and every statement is non-empty and trimmed |
| ParitySplitter.StatementsCoverCleanText | scripts/applyAllMigrations.ts:23-74 | the statements are the trimmed groups, and the groups plus a blank tail rebuild the cleaned text line by line |
| ParitySplitter.NoFunctionCutsAtEveryTerminator | scripts/applyAllMigrations.ts:45-68 | without a function keyword, statements end at exactly the lines whose trimmed form ends in `;` |
| ParitySplitter.NoFunctionRunFrom | scripts/applyAllMigrations.ts:45-68 | the same, from any state outside function mode |
| ParitySplitter.StepWithoutFunction | scripts/applyAllMigrations.ts:45-68 | a line without a function keyword never enters function mode and cuts only at `;` |
| ParitySplitter.FunctionDefinitionIsOneStatement | scripts/applyAllMigrations.ts:45-68 | a header with one `$$`, a body without `$$` and a `$$ …;` closer form one statement |
| ParitySplitter.HeaderOpensFunction | scripts/applyAllMigrations.ts:45-55 | a function header with one `$$` enters function mode with the counter at one |
| ParitySplitter.InsideFunctionBody | scripts/applyAllMigrations.ts:50-61 | while the count is odd, lines without `$$` are kept even when they end in `;` |
| ParitySplitter.CloserEndsFunction | scripts/applyAllMigrations.ts:57-67 | the line that makes the count even and ends in `;` closes the function |
| ParitySplitter.PlainStatementLine | scripts/applyAllMigrations.ts:57-67 | an ordinary `;` line outside function mode is a statement of its own |
| ParitySplitter.GroupsWhenNothingPending | scripts/applyAllMigrations.ts:71-74 | with nothing pending at the end, the statements are the emitted groups |
| LiteralSplitter.Emit | scripts/applyMigrationFixed.ts:42-45 | emitting pushes the pending lines plus this line and leaves function mode |
| LiteralSplitter.OpensFunction | scripts/applyMigrationFixed.ts:31-33 | a line that begins with `CREATE OR REPLACE FUNCTION` switches function mode on; a line without an upper-case `C` or `P`, such as a bare `CREATE FUNCTION` header, never does |
| LiteralSplitter.KeywordAnywhere | scripts/applyMigrationFixed.ts:31-33 | the keyword is found wherever it sits in the line |
| LiteralSplitter.Extend | scripts/applyMigrationFixed.ts:35 | a line that closes nothing is appended to the pending statement |
| LiteralSplitter.Step | scripts/applyMigrationFixed.ts:28-46 | each line joins exactly one statement; a statement ends at a `;` line outside function mode or at a line that is exactly `$$;` |
| LiteralSplitter.Run | scripts/applyMigrationFixed.ts:28-47 | the fold accounts for every line, in order |
| LiteralSplitter.StepKeepsValid | scripts/applyMigrationFixed.ts:37-46 | every emitted group ends in a `;` line |
| LiteralSplitter.RunKeepsValid | scripts/applyMigrationFixed.ts:28-47 | that invariant holds after any number of lines |
| LiteralSplitter.RunFromStart | scripts/applyMigrationFixed.ts:28-47 | the emitted groups followed by the pending lines are exactly the input lines |
| LiteralSplitter.Groups | scripts/applyMigrationFixed.ts:28-52 | the final groups are a prefix of the lines, only a blank tail is left out, and each group yields a non-empty statement |
| LiteralSplitter.SplitStatements | scripts/applyMigrationFixed.ts:16-52 | every statement is non-empty and trimmed |
| LiteralSplitter.EmptyCleanTextHasNoStatements | scripts/applyMigrationFixed.ts:16-52 | a file that cleans to nothing has no statements |
| LiteralSplitter.StatementsCoverCleanText | scripts/applyMigrationFixed.ts:16-52 | the statements are the trimmed groups, and the groups plus a blank tail rebuild the cleaned text |
| LiteralSplitter.NoKeywordCutsAtEveryTerminator | scripts/applyMigrationFixed.ts:31-46 | without `CREATE OR REPLACE FUNCTION`, statements end at exactly the `;` lines |
| LiteralSplitter.NoKeywordRunFrom | scripts/applyMigrationFixed.ts:31-46 | the same, from any state outside function mode |
| LiteralSplitter.StepWithoutKeyword | scripts/applyMigrationFixed.ts:31-46 | a line without the keyword never enters function mode and cuts only at `;` |
| LiteralSplitter.KeywordEntersFunction | scripts/applyMigrationFixed.ts:31-35 | with nothing pending, a header line enters function mode and starts a statement |
| LiteralSplitter.FunctionModeAbsorbs | scripts/applyMigrationFixed.ts:37-45 | in function mode, every line other than `$$;` joins the pending statement, even one ending in `;` |
| LiteralSplitter.FunctionEndCloses | scripts/applyMigrationFixed.ts:38-45 | a `$$;` line in function mode closes the statement |
| LiteralSplitter.GroupsWithPendingTail | scripts/applyMigrationFixed.ts:49-52 | a non-blank pending tail becomes the last statement |
| NaiveSplitter.Keep | scripts/applyMigration.ts:18-19 | a piece is kept, trimmed, exactly when it is non-empty and does not start with `/*` or `--` |
| NaiveSplitter.KeepAll | scripts/applyMigration.ts:18-19 | kept pieces are trimmed and pass the filter, and no `;` appears in them if none was in the pieces |
| NaiveSplitter.KeepAllAppend | scripts/applyMigration.ts:18-19 | map-and-filter works piece by piece, so order is kept |
| NaiveSplitter.SplitStatements | scripts/applyMigration.ts:16-19 | no statement contains `;`, starts with a comment marker or is empty, and each is trimmed |
| NaiveSplitter.NoSemicolonIsOnePiece | scripts/applyMigration.ts:16-19 | text without `;` is one piece |
| NaiveSplitter.FirstPieceFirst | scripts/applyMigration.ts:16-19 | the text before the first `;` gives the first statement, if any, and the rest follows in order |
| NaiveSplitter.CommentLedPieceDropped | scripts/applyMigration.ts:19 | a piece that starts with a comment is dropped whole, with any SQL after the comment |
| SplitterExamples.ParityKeepsFunctionWhole | scripts/applyAllMigrations.ts:45-68 | the example trigger function is one group for the parity splitter |
| SplitterExamples.ParitySplitsAfterFunction | scripts/applyAllMigrations.ts:57-67 | a `SELECT …;` after the function is a separate statement for the parity splitter |
| SplitterExamples.LiteralFoldsTailIntoFunction | scripts/applyMigrationFixed.ts:37-45 | with the same input, the literal splitter never leaves function mode and folds the `SELECT` into the function's statement |
| SplitterExamples.CleanFunctionText | scripts/applyAllMigrations.ts:23-26 | the example text passes through cleaning unchanged |
| SplitterExamples.ParityFunctionTextIsOneStatement | scripts/applyAllMigrations.ts:23-74 | the whole example text is one statement for the parity splitter |
| SplitterExamples.NaiveSplitsFunctionBody | scripts/applyMigration.ts:16-17 | the naive splitter cuts the same function inside its body, yielding `RETURN NEW` as a statement |
| SplitterExamples.BareHeaderOnlyParity | scripts/applyMigrationFixed.ts:31-33 | a header written `CREATE FUNCTION …` enters function mode for the parity splitter but not for this one |
| Text.Trim | scripts/applyAllMigrations.ts:42 | `trim` leaves no whitespace at either end |
| Text.TrimShape | scripts/applyAllMigrations.ts:42 | `trim` keeps the middle between a blank prefix and a blank suffix, and is empty exactly for blank text |
| Text.TrimIdempotent | scripts/applyAllMigrations.ts:42 | trimming twice is trimming once |
| Text.TrimOfPadded | scripts/applyAllMigrations.ts:42 | blank padding around a trimmed core trims to the core |
| Text.Split | scripts/applyAllMigrations.ts:39 | `split` on one character returns at least one piece, and no piece contains the separator |
| Text.JoinSplit | scripts/applyAllMigrations.ts:39 | joining the pieces of a split gives back the text |
| Text.SplitJoin | scripts/applyAllMigrations.ts:39 | splitting a join of separator-free pieces gives back the pieces |
| Text.SplitAtSeparator | scripts/applyMigration.ts:17 | the pieces around a separator are the pieces of each side |
| Text.Extension | src/components/CreateCommunity.tsx:23 | `name.split('.').pop()` contains no dot, and is the whole name when it has none |
| Text.ExtensionAfterLastDot | src/components/CreateCommunity.tsx:23 | the extension is the text after the last dot |
| Text.Capitalize | src/pages/ModerationPage.tsx:170 | the first character is upper-cased and the rest is unchanged |
| Text.CapitalizeIdempotent | src/pages/ModerationPage.tsx:170 | capitalising twice is capitalising once |
| Text.Lower | src/components/CreateCommunity.tsx:24 | `toLowerCase` maps every character and keeps the length |
| Decimal.Show | src/components/PostItem.tsx:17 | `${n}` is a canonical digit string, one digit exactly below ten |
| Decimal.ParseShow | src/components/PostItem.tsx:17 | reading back a rendered number gives the number |
| Decimal.ShowParse | src/components/PostItem.tsx:17 | rendering a parsed canonical string gives the string |
| Decimal.ShowInt | src/components/PostItem.tsx:17 | a negative number renders as a minus sign before its magnitude |
| Lists.Filter | src/pages/ModerationPage.tsx:77-79 | `filter` keeps exactly the entries that pass, and never adds one |
| Lists.FilterCounts | src/pages/ModerationPage.tsx:77-79 | a filter keeps every copy of a kept value and none of any other, so its result is a sub-multiset of its input |
| Lists.FilterIsSubsequence | src/pages/ModerationPage.tsx:77-79 | what a filter keeps stays in its original order |
| Lists.FilterComplement | src/components/ProfileCompletionGuide.tsx:26-27 | every entry passes exactly one of a filter and its negation |
| Lists.FilterAppend | src/pages/ModerationPage.tsx:77-79 | filtering works entry by entry |
| Lists.FilterKeepsAll | src/pages/ModerationPage.tsx:78 | a filter that passes everything returns the list itself |
| Lists.Map | src/components/ProfileCompletionGuide.tsx:27 | `map` keeps the length and applies the function at every position |
| Lists.MapKeepsSubsequence | src/components/ProfileCompletionGuide.tsx:27 | mapping keeps the order of a subsequence |
| Types.ParseStatus | src/types/auth.ts:29 | a status read back from text has that text as its name |
| Types.StatusNameRoundTrip | src/types/auth.ts:29 | every status is stored as its own text and read back unchanged |
| Types.ParseItemType | src/types/auth.ts:27 | an item type read back from text has that text as its name |
| Types.ItemTypeNameRoundTrip | src/types/auth.ts:27 | every item type is stored as its own text and read back unchanged |
| ProfileCompletion.Fields | src/components/ProfileCompletionGuide.tsx:13-24 | there are ten checklist entries, with their labels in the fixed order |
| ProfileCompletion.CompleteIffNotBlank | src/components/ProfileCompletionGuide.tsx:26 | an entry is complete exactly when it has a value that is not all whitespace |
| ProfileCompletion.Calculate | src/components/ProfileCompletionGuide.tsx:10-34 | total is ten; no profile gives score 0 and nothing missing; otherwise score plus missing is ten and the missing labels keep the fixed order |
| ProfileCompletion.LabelsDistinct | src/components/ProfileCompletionGuide.tsx:13-24 | the ten labels are distinct |
| ProfileCompletion.MissingIffIncomplete | src/components/ProfileCompletionGuide.tsx:26-27 | a label is missing exactly when its entry is incomplete |
| ProfileCompletion.FilteredCaptions | src/components/ProfileCompletionGuide.tsx:27 | with distinct labels, a label survives filter-then-map exactly when its entry fails the test |
| ProfileCompletion.BlankFirstLinkHidesLaterLinks | src/components/ProfileCompletionGuide.tsx:21 | a whitespace-only twitter link makes the social entry missing, whatever the later links hold |
| ProfileCompletion.Percentage | src/components/ProfileCompletionGuide.tsx:37 | with ten entries the rounded percentage is exactly ten times the score, within 0 to 100 |
| ProfileCompletion.RoundingTen | src/components/ProfileCompletionGuide.tsx:37 | rounding `score / 10 * 100` to the nearest integer is exact |
| ProfileCompletion.FullExactlyWhenNothingMissing | src/components/ProfileCompletionGuide.tsx:29-37 | the percentage is 100 exactly when nothing is missing |
| ProfileCompletion.BandOf | src/components/ProfileCompletionGuide.tsx:46-60 | the message band is chosen by the thresholds 100, 80, 60 and 40 |
| ProfileCompletion.BandMonotone | src/components/ProfileCompletionGuide.tsx:46-60 | a higher percentage never falls into a lower band |
| ProfileCompletion.EmojiAndMessageFollowBand | src/components/ProfileCompletionGuide.tsx:46-60 | two percentages get the same emoji, and the same message, exactly when they are in the same band |
| ProfileCompletion.MessageLead | src/components/ProfileCompletionGuide.tsx:46-52 | each message opens with its band's symbol |
| ProfileCompletion.Emoji | src/components/ProfileCompletionGuide.tsx:54-60 | the emoji is one symbol, the trophy exactly at 100, and below 100 the symbol its band's message opens with |
| ProfileCompletion.Message | src/components/ProfileCompletionGuide.tsx:46-52 | the message opens with its band's symbol, which below 100 is the emoji shown beside it |
| ProfileCompletion.ColorMonotone | src/components/ProfileCompletionGuide.tsx:39-44 | the colour never gets worse as the percentage rises, and it is green exactly from 80 |
| ProfileCompletion.Color | src/components/ProfileCompletionGuide.tsx:39-44 | the colour per band: red below 40, orange from 40, yellow from 60, green from 80 and at 100; so its rank is the band's rank, with 100 sharing the green of 80 to 99 |
| ProfileCompletion.Visible | src/components/ProfileCompletionGuide.tsx:108-160 | the missing chips show exactly when some field is missing, the benefits exactly below 100%, the celebration exactly at 100%; with ten entries the benefits and the celebration are never shown together, and one of them always is |
| ProfileCompletion.ProfileSections | src/components/ProfileCompletionGuide.tsx:108-160 | the missing chips show exactly when the benefits do, and exactly when there is no celebration, which shows exactly when no field is missing |
| ProfileCompletion.NoProfileSections | src/components/ProfileCompletionGuide.tsx:11 | without a profile the percentage is 0 and only the benefits show |
| ProfileForm.UsernameError | src/pages/ProfilePage.tsx:120-126 | a username is accepted exactly when it has three or more characters, all letters, digits or `_`; a blank one is "required", a short one "too short", and any other rejected one gets the charset message, in that order |
| ProfileForm.WebsiteError | src/pages/ProfilePage.tsx:129-131 | a website is accepted exactly when it is empty or matches `^https?://.+` |
| ProfileForm.WebsiteSchemes | src/pages/ProfilePage.tsx:129 | both schemes followed by a character are accepted, and a bare scheme is not |
| ProfileForm.PhoneAcceptedIffMatches | src/pages/ProfilePage.tsx:133 | the character-by-character phone check agrees with the pattern `^[+]?[1-9]\d{0,15}$` |
| ProfileForm.PhoneError | src/pages/ProfilePage.tsx:133-135 | a phone is accepted exactly when it is empty or matches the pattern, so an accepted one has at most 17 characters, all digits after the first; a rejected one gets the "valid phone number" message |
| ProfileForm.BioError | src/pages/ProfilePage.tsx:137-139 | a bio is accepted exactly when it has at most 500 characters; a longer one gets the "500 characters" message |
| ProfileForm.Get | src/pages/ProfilePage.tsx:145 | every field holds a value of its kind, text or flag |
| ProfileForm.With | src/pages/ProfilePage.tsx:146 | setting a field changes that field and no other |
| ProfileForm.FormsAgreeOnFields | src/pages/ProfilePage.tsx:146 | two forms that agree on every field are the same |
| ProfileForm.Validate | src/pages/ProfilePage.tsx:116-143 | each field has an error exactly when its check fails, with that check's message (the username's own message, the website, phone and bio messages), and no other key is set |
| ProfileForm.ValidateIffAcceptable | src/pages/ProfilePage.tsx:141-142 | validation passes exactly when every field is acceptable |
| ProfileForm.ChangeField | src/pages/ProfilePage.tsx:145-153 | an edit changes only its field, marks the form changed and clears only that field's error |
| ProfileForm.ChangeAvatar | src/pages/ProfilePage.tsx:155-181 | an oversized file sets the "less than 5MB" error before the type is looked at; a file of any other size that is not `image/` sets the "valid image file" error; both rejections leave the chosen file and the unsaved-changes flag as they were, and only an accepted file changes the avatar |
| ProfileForm.SmallImageAccepted | src/pages/ProfilePage.tsx:159-172 | an image of at most 5 MiB is taken and marks the form changed |
| ProfileForm.Submit | src/pages/ProfilePage.tsx:183-191 | submit records the validation errors and sends the form with the preview address and the file exactly when the form is acceptable |
| ProfileForm.SubmitSucceeded | src/pages/ProfilePage.tsx:109-113 | a stored update clears the changed mark and the chosen file, and keeps the rest |
| ProfileForm.StoredAvatarUrl | src/pages/ProfilePage.tsx:30-51 | the stored avatar address is the uploaded file's, or the preview when no file was chosen |
| ProfileForm.AvatarPath | src/pages/ProfilePage.tsx:34-36 | the avatar path lies under `avatars/avatar-` |
| ProfileForm.AvatarPathReadsBack | src/pages/ProfilePage.tsx:34-36 | the avatar path reads back as `avatars/avatar-`, the digits of exactly the upload time, a `.` and the chosen file's extension |
| ProfileForm.AvatarPathKeepsExtension | src/pages/ProfilePage.tsx:34-36 | the stored avatar keeps the chosen file's extension |
| ProfileForm.FormOf | src/pages/ProfilePage.tsx:89-101 | missing text becomes `''`; missing flags become email-private, profile-public, email on and push off |
| ProfileForm.BareProfileLoadsDefaults | src/pages/ProfilePage.tsx:69-101 | a profile without values loads the page's initial form |
| ProfileForm.Load | src/pages/ProfilePage.tsx:88-104 | a profile replaces the form and the preview, and nothing else changes |
| ProfileForm.Cancel | src/pages/ProfilePage.tsx:193-213 | cancel drops the chosen file, the changed mark and every error; with a profile the form and preview are what that profile loads, without one they stay as they were |
| ProfileForm.CancelUndoesEdit | src/pages/ProfilePage.tsx:193-213 | cancelling after an edit restores what was loaded |
| Moderation.Visible | src/pages/ModerationPage.tsx:77-79 | a tab shows an ordered subsequence of the reports, exactly those whose status matches, or all of them on the all tab; nothing before loading |
| Moderation.VisibleCounts | src/pages/ModerationPage.tsx:77-79 | a tab shows every copy of each report it selects, as often as the fetched list holds it, and nothing else |
| Moderation.Count | src/pages/ModerationPage.tsx:149 | a tab's count is the length of its list, and 0 before loading |
| Moderation.StatusCountsAddUp | src/pages/ModerationPage.tsx:133-149 | the four status counts add up to the all count |
| Moderation.TabsFacts | src/pages/ModerationPage.tsx:133-139 | five tabs, one per status and `all` last; no key repeats; each label is its key with the first letter upper-cased |
| Moderation.Shows | src/pages/ModerationPage.tsx:77-79 | a tab shows a report exactly when the tab's key is `all` or equals the report's status text |
| Moderation.StatusColorTells | src/pages/ModerationPage.tsx:81-89 | pending, reviewed and resolved each have their own colour; dismissed and any other text share the gray default |
| Moderation.StatusColor | src/pages/ModerationPage.tsx:81-89 | by the status the text names: pending yellow, reviewed blue, resolved green; dismissed and text naming no status gray |
| Moderation.Badge | src/pages/ModerationPage.tsx:170 | a status badge reads the same as its tab label |
| Moderation.ItemCaption | src/pages/ModerationPage.tsx:173 | the caption is exactly `Post #` or `Comment #` followed by the id, with nothing between `#` and the id |
| Moderation.Actions | src/pages/ModerationPage.tsx:192-208 | actions are offered exactly for pending reports: Resolve (to resolved) then Dismiss (to dismissed); neither leaves a report pending |
| Moderation.Review | src/pages/ModerationPage.tsx:24-35 | the reports with the id get the status, review time and the moderator's id; no other field and no other report changes |
| Moderation.ReviewIdempotent | src/pages/ModerationPage.tsx:24-35 | applying the same review twice is applying it once |
| Moderation.ReviewedReportLeavesPending | src/pages/ModerationPage.tsx:192-208 | after Resolve or Dismiss, the pending tab loses exactly the reports with that id |
| Moderation.PendingAfterReview | src/pages/ModerationPage.tsx:24-35 | the pending reports after the review are the earlier pending reports without that id |
| Moderation.EmptyMessage | src/pages/ModerationPage.tsx:160 | the empty-list text is `No {status} reports found.` on each status tab, with the status word, and `No  reports found.` on the all tab |
| PostItem.Hours | src/components/PostItem.tsx:14 | the hour count is the whole number of hours in the difference, rounded down |
| PostItem.AgeOf | src/components/PostItem.tsx:11-20 | under an hour (or in the future) is "Just now", 1 to 23 hours show the count, 24 to 47 are "Yesterday", and the rest or an unreadable date is the locale date |
| PostItem.FutureIsJustNow | src/components/PostItem.tsx:16 | a creation time in the future reads "Just now" |
| PostItem.AgeMonotone | src/components/PostItem.tsx:11-20 | as time passes a post never moves back to an earlier bucket, and its hour count never falls |
| PostItem.HoursCaptionReadsBack | src/components/PostItem.tsx:17 | the number in "{n}h ago" reads back as the hour count |
| PostItem.Caption | src/components/PostItem.tsx:16-19 | an hours caption is the digits of exactly the hour count followed by `h ago`; the fixed captions are exactly "Just now" and "Yesterday" and never end in `h ago`; an older post shows the locale date as given |
| PostItem.DisplayCount | src/components/PostItem.tsx:72 | a missing like or comment count shows as 0, a present one as itself |
| CommentItem.CreateReply | src/components/CommentItem.tsx:19-36 | without a non-empty user id and author the reply fails with the sign-in message; otherwise its row is the given content, post and parent |
| CommentItem.ReplyJoinsThread | src/components/CommentItem.tsx:30-72 | a reply typed under a comment, in the thread of a given post, and sent by a signed-in user is stored under that comment in that post, with exactly the typed text and that user as author |
| CommentItem.ToggleReply | src/components/CommentItem.tsx:107 | the Reply button flips the reply box and changes nothing else |
| CommentItem.SubmitReply | src/components/CommentItem.tsx:66-70 | a reply is sent exactly when its text is not empty, as typed |
| CommentItem.BlankReplyIsSent | src/components/CommentItem.tsx:68 | text of spaces alone is not blocked |
| CommentItem.ReplySucceeded | src/components/CommentItem.tsx:59-63 | a stored reply clears the text and closes the box, and keeps the rest |
| CommentItem.NothingToResend | src/components/CommentItem.tsx:59-69 | after a success nothing is sent and the form is hidden |
| CommentItem.ShownReplies | src/components/CommentItem.tsx:138-170 | replies render only when there is at least one and the thread is expanded |
| CommentItem.ReplyCount | src/components/CommentItem.tsx:160 | the caption ends in " reply" for one child and in " replies" otherwise |
| CommentItem.ReplyCountReadsBack | src/components/CommentItem.tsx:160 | the caption starts with the number of replies, which reads back |
| CommentItem.ReportTitle | src/components/CommentItem.tsx:180 | content of 50 characters or fewer is its own title; longer content gives its first 50 characters and `...` |
| CommentItem.ReportTitleCollisions | src/components/CommentItem.tsx:180 | two contents share a title exactly when both are short and equal, or both are long with the same first 50 characters |
| ReportModal.ReasonsFacts | src/components/ReportModal.tsx:26-34 | there are seven reasons, all non-empty and trimmed, and only the last is `Other` |
| ReportModal.Select | src/components/ReportModal.tsx:102-109 | picking a radio button chooses that listed reason and keeps the typed text |
| ReportModal.Type | src/components/ReportModal.tsx:127 | typing changes only the custom text |
| ReportModal.Close | src/components/ReportModal.tsx:76 | closing keeps the chosen reason and the typed text |
| ReportModal.Succeeded | src/components/ReportModal.tsx:44-49 | a stored report closes the dialog and clears both fields |
| ReportModal.ValidPreserved | src/components/ReportModal.tsx:37-49 | the chosen reason is always nothing or a listed reason |
| ReportModal.Submit | src/components/ReportModal.tsx:52-63 | a report is sent exactly with a user and a chosen reason; it carries the item unchanged and the trimmed custom text for `Other`, else the trimmed reason |
| ReportModal.SubmitDisabled | src/components/ReportModal.tsx:139 | the submit button is off exactly while a request is pending, no reason is chosen, or `Other` is chosen with whitespace-only text |
| ReportModal.EnabledSendsReason | src/components/ReportModal.tsx:139 | through the enabled button a non-empty reason is always sent, and a listed reason is sent as it is |
| ReportModal.HandlerAcceptsBlankOther | src/components/ReportModal.tsx:54-61 | the handler alone would send `Other` with blank text as an empty reason, and the disabled button is what prevents that |
| CreateCommunity.Slug | src/components/CreateCommunity.tsx:24 | the slug has no whitespace and no upper-case letter, and is no longer than the name |
| CreateCommunity.SlugOfWord | src/components/CreateCommunity.tsx:24 | a part without whitespace is only lower-cased |
| CreateCommunity.SlugCollapsesRun | src/components/CreateCommunity.tsx:24 | a whitespace run of any length becomes one `-` |
| CreateCommunity.SlugIdempotent | src/components/CreateCommunity.tsx:24 | a slug is its own slug |
| CreateCommunity.ImageFileName | src/components/CreateCommunity.tsx:24 | the file name starts with the slug and a `-` |
| CreateCommunity.ImageFileNameReadsBack | src/components/CreateCommunity.tsx:23-24 | the file name reads back as the slug, a `-`, the digits of exactly the upload time, a `.` and the chosen file's extension |
| CreateCommunity.ImagePath | src/components/CreateCommunity.tsx:25 | the path is `community-images/` followed by exactly the file name |
| CreateCommunity.ImagePathReadsBack | src/components/CreateCommunity.tsx:23-25 | the path reads back as `community-images/`, the slug, a `-`, the upload time's digits, a `.` and the extension |
| CreateCommunity.ImagePathKeepsExtension | src/components/CreateCommunity.tsx:23-25 | the stored banner keeps the chosen file's extension |
| CreateCommunity.Create | src/components/CreateCommunity.tsx:18-52 | without a file nothing is uploaded and `image_url` is `''`; a failed upload fails with its message; otherwise the row points at the uploaded path |
| CreateCommunity.ImageUrlIffUploaded | src/components/CreateCommunity.tsx:19-47 | a row has an image address exactly when a file was uploaded |
| CreateCommunity.ChooseFile | src/components/CreateCommunity.tsx:105-117 | the first chosen file becomes the banner, and an empty choice changes nothing |
| CreateCommunity.RemoveImage | src/components/CreateCommunity.tsx:119-122 | removing the image clears the file and the preview, and keeps the text |
| CreateCommunity.CreateDisabled | src/components/CreateCommunity.tsx:222 | the create button is off exactly while a request is pending or the name is whitespace alone |
| CreateCommunity.ScreenFor | src/components/CreateCommunity.tsx:64-86 | only a moderator's profile sees the form |
| CreatePost.Submit | src/components/CreatePost.tsx:63-75 | a post is sent exactly when an image is chosen, with the draft's text and community and the user's avatar or `null` |
| CreatePost.ImageIsRequired | src/components/CreatePost.tsx:65 | a draft without an image is never sent, although the field is captioned optional |
| CreatePost.SubmitDisabled | src/components/CreatePost.tsx:257 | the submit button is off exactly while a request is pending or the title or the content is whitespace alone |
| CreatePost.CommunityChange | src/components/CreatePost.tsx:77-80 | the placeholder clears the community, and any other option selects its number |
| CreatePost.CommunityOptionRoundTrip | src/components/CreatePost.tsx:77-80 | choosing a community's option selects that community |
| CreatePost.EmojiClick | src/components/CreatePost.tsx:96-99 | the emoji is appended to the content and the picker closes; nothing else changes |
| CreatePost.ChooseFile | src/components/CreatePost.tsx:82-94 | the first chosen file becomes the image, and an empty choice changes nothing |
| CreatePost.RemoveImage | src/components/CreatePost.tsx:101-104 | removing clears the file and the preview only |
| CreatePost.RemoveBlocksSubmit | src/components/CreatePost.tsx:65 | after removing the image the draft cannot be sent |
| CreatePost.StoragePath | src/components/CreatePost.tsx:21 | the path starts with the title and a `-`, and ends with `-` and the file name |
| CreatePost.StoragePathSplits | src/components/CreatePost.tsx:21 | with no `-` in title or file name, the path splits back into title, time and file name |
| CreatePost.Create | src/components/CreatePost.tsx:20-40 | a failed upload fails with its message; otherwise the row is the post with the uploaded image's address |
| CreatePost.SubmittedDraftIsStored | src/components/CreatePost.tsx:20-75 | a submitted draft is stored with its title, content and community, under a path ending in its file name |

## Left out

- Migration plumbing is not modelled: reading the directory and files, environment variables, the `exec_sql` calls and logging. So neither the way a failed statement is handled nor the continue-after-error loop is modelled.
- Remote calls are parameters or left out: storage uploads, public-URL lookup, table reads and writes, and React Query caching and invalidation. A failed insert or update just passes the service's message through, and is not modelled.
- Rendering, routing, CSS classes, the loading and error views, and the 30-second refetch of the moderation list are not modelled.
- `FileReader` previews are asynchronous browser I/O and are not modelled. Choosing a file sets the file only.
- Locale formatting (`toLocaleDateString`, `toLocaleString`) is opaque. The post card takes the locale text as a parameter.
- Strings are sequences of code points. JavaScript lengths count UTF-16 code units, so the 3-character username minimum, the 500-character bio limit, the 50-character report title and `substring` differ for characters outside the Basic Multilingual Plane.
- ProfileForm.UsernameError: the length is counted in code points, not UTF-16 code units. So `"😀😀"` has length 2 here and gets "too short", while JavaScript counts 4 and gives the charset message. Either way it is rejected.
- MigrationFiles.Sort: compares code points, while JavaScript's default sort compares UTF-16 code units. The two orders differ only between a character above U+FFFF and one in U+E000–U+FFFF: JavaScript puts the surrogate 0xD83D before 0xFF61, and the model puts U+FF61 first.
- `toLowerCase` and `toUpperCase` are modelled for ASCII letters only.
- ProfileCompletion.Percentage: rounding is stated only for the total of ten that `calculateCompletionScore` always returns. The general `Math.round` on a floating-point quotient is not modelled.
- ProfileForm.ChangeField: setting an error to `undefined` is modelled as removing its key. The rendered page treats both the same.
- ProfileForm.StoredAvatarUrl: the "Avatar upload failed" error path of `updateProfile` is not modelled.
- PostItem.AgeOf: an unparsable date is modelled as an absent timestamp, which is what the NaN comparisons amount to.
- The parity splitter counts `$$` on every line since the last emitted statement, not only after a function keyword. The counter resets only when a statement is emitted. The model follows the code here.
- The migration runner does not stop on an authentication failure. Its own `throw` is caught by the per-statement handler, so the loop continues. Execution is outside the model either way.
- `scripts/applyMigrationSimple.ts` and `scripts/addCommunities.ts` only send data to the backend and are not part of this model. Neither are `ImageCropModal`, the mock data and delays in the community and post lists, or the UI primitives.
