# Tamohar daily-verse core in Dafny

Tamohar shows one verse (shlok) of the Bhagavad Gita per day. The verses come
from a CSV file. The server parses that file into an ordered list of records.
It turns the calendar date into the unpadded text `Y-M-D`, sums the character
codes of that text, and takes the absolute value of the sum modulo the number of
records. The record at that index is today's verse. When the API cannot be
reached, the browser repeats the selection itself from the same file. A push
notification is sent to every user whose stored time matches the current UTC
`HH:MM`.

This project models that core:

- **The CSV row parser.** It is shared by the server and the page (`CsvRow`).
- **The server loader and selectors** (`ShlokServer`): loading, the daily
  index, the random pick and the lookup by chapter and verse.
- **The page's fallback** (`ClientFallback`). It also covers the page's test for
  whether the shown verse is bookmarked, and the removal of that verse's
  bookmarks.
- **The browser's sanitising and validating helpers** (`Sanitize`).
- **The server's XSS middleware** (`ServerSanitize`).
- **The notification check** (`Notifications`).
- **The bookmark list's updates** (`Bookmarks`).
- **The sign-up and login validators** (`SignUp`, `Login`).
- **The onboarding slide machine** (`OnboardingFlow`).

Supporting modules:

- `Wrappers` holds `Option` and `Result`.
- `Text` holds the JavaScript string primitives: `trim`, `split`, `join`,
  `indexOf`, `String(n)` and the char-code sum.
- `Lists` holds `filter`, `some` and a filter-map.

Code that works by changing state keeps that form:

- **Loops become methods** with invariants: `parseCSVRow`, the preamble skip and
  the parse loop of `readShloksFromCSV`, the `forEach` that fills the page's
  object, the `forEach` loops of `sanitizeObject` and
  `validateAndSanitizeInputs`, and the two loops of `checkAndSendNotifications`.
  Each method is proved equal to a specification function. The properties are
  proved about those functions.
- **Objects with mutable fields become classes.** The server middleware rewrites
  `req.query` and `req.body`, and `Onboarding` holds `currentSlide`, the chosen
  time and the writes made so far.

The central result is `ClientFallback.ClientAgreesWithServer`. It covers a file
laid out as follows:

- at most one `//` comment line;
- then the standard header line;
- then data lines that each parse to at least five columns;
- the first data line neither holds `chapter,verse` nor starts with `//`;
- no blank lines, with or without one final newline.

For such a file the page's fallback and the server pick the record of the same
data line. Two lemmas show where the two copies part:

- `ClientFallback.ShortRowShrinksCorpus`: one data line with fewer than five
  columns makes the server's corpus smaller than the page's list of data rows.
- `ClientFallback.PreambleLookingLineSkipped`: a first data line that looks like
  preamble is skipped by the server's header loop but kept by the page.

In both cases the two reduce the date hash modulo different sizes. Blank lines
inside the file are dropped by both sides, but the layout lemmas do not cover
them.

## Model

| member | source | states |
|---|---|---|
| CsvRow.ParseCSVRow | server/controllers/shlokController.js:21-45 | the character loop computes `ParseRow(row)`. A `"` flips the quote mode, an unquoted comma pushes the trimmed field, and any other character is copied. After the loop the last field is pushed only when it is non-empty. |
| CsvRow.ParseRowClean | server/controllers/shlokController.js:26-42 | every field is quote-free, because a `"` only toggles the mode and is never copied. Every field is trimmed. |
| CsvRow.TrailingComma | server/controllers/shlokController.js:39-42 | a trailing comma after a non-empty last field adds no field. |
| CsvRow.TrailingCommaAfterEmpty | server/controllers/shlokController.js:31-42 | after an empty field, a further unquoted comma pushes `""`. An empty middle field is kept. |
| CsvRow.QuotedLineRoundTrip | server/controllers/shlokController.js:26-42 | take quote-free, trimmed fields whose last field is non-empty. Written as `"f0","f1",…`, they parse back to themselves, commas inside them included. |
| ShlokServer.StripOuterQuotesOfQuoteFree | server/controllers/shlokController.js:98-101 | the loader's removal of one leading and one trailing quote changes nothing on a parsed field. |
| ShlokServer.CleanField | server/controllers/shlokController.js:96-101 | the loader's second `trim()` and quote strip leave a parsed field as it is. |
| ShlokServer.RowRecord | server/controllers/shlokController.js:92-103 | a line yields a record if and only if it parses to at least five columns. |
| ShlokServer.RowRecordColumns | server/controllers/shlokController.js:94-102 | the record is columns 0–4 in order, and `application` is column 5 or `""`. |
| ShlokServer.RowRecordClean | server/controllers/shlokController.js:95-102 | every field of a record is trimmed and quote-free. |
| ShlokServer.NonBlankOfNonBlank | server/controllers/shlokController.js:72 | the blank-line filter keeps every non-blank line, in order. |
| ShlokServer.RowsOfLines | server/controllers/shlokController.js:72 | splitting single lines joined by newlines, with or without a final newline, and dropping blank rows gives the non-blank lines. A final newline adds no row. |
| ShlokServer.PreambleLength | server/controllers/shlokController.js:75-82 | every row before the returned index is a `//` or `chapter,verse` row, and the row at it is not. |
| ShlokServer.PreambleContinues | server/controllers/shlokController.js:76-82 | a preamble row that follows only preamble rows is still skipped. |
| ShlokServer.PreambleLengthOf | server/controllers/shlokController.js:75-82 | preamble rows followed by a non-preamble row are skipped exactly. |
| ShlokServer.ParseDataRows | server/controllers/shlokController.js:90-104 | the parse loop returns the records of the rows from `startRow` on that have five or more columns. Shorter rows are dropped and the order is kept. |
| ShlokServer.ReadShloksFromCSV | server/controllers/shlokController.js:51-112 | the result is the corpus of the primary file, or else of the fallback file. With neither file it is `[]`. Every record is clean. |
| ShlokServer.RecordsOfClean | server/controllers/shlokController.js:90-104 | every record loaded from any list of rows is trimmed and quote-free. |
| ShlokServer.CorpusClean | server/controllers/shlokController.js:71-104 | every record of the corpus of any text is trimmed and quote-free. |
| ShlokServer.CorpusOfLayout | server/controllers/shlokController.js:71-104 | a file of preamble lines and data lines, with or without a final newline, loads as the records of the data lines. There is one record per data line when every data line has five columns. |
| ShlokServer.JsRemainder | server/controllers/shlokController.js:157 | JavaScript's `%` is smaller than the divisor in absolute value, and is non-negative for a non-negative dividend. |
| ShlokServer.DailyIndex | server/controllers/shlokController.js:157 | `Math.abs(hash % n)` is always a valid index below `n`. |
| ShlokServer.DailyIndexOfNatural | server/controllers/shlokController.js:152-157 | for the non-negative char-code sum the index is the plain remainder. |
| ShlokServer.DailyIndexForDate | server/controllers/shlokController.js:145-157 | the index computed from the date is below the corpus size. |
| ShlokServer.GetDailyShlok | server/controllers/shlokController.js:138-162 | the result is null if and only if the corpus is empty; otherwise it is a record of the corpus. |
| ShlokServer.DailyDependsOnSizeOnly | server/controllers/shlokController.js:145-162 | two corpora of the same size give the records at the same position on the same date. |
| ShlokServer.DateStringExample | server/controllers/shlokController.js:147-149 | 15 January 2024 renders unpadded as `2024-1-15`. |
| ShlokServer.DailyIndexExample | server/controllers/shlokController.js:152-157 | `2024-1-15` sums to 441, which is the index with 700 records. |
| ShlokServer.RandomIndex | server/controllers/shlokController.js:125 | `Math.floor(r * n)` with `0 <= r < 1` is below `n`. |
| ShlokServer.GetRandomShlok | server/controllers/shlokController.js:118-126 | the result is null if and only if the corpus is empty; otherwise it is a record of the corpus. |
| ShlokServer.FindFirst | server/controllers/shlokController.js:183-189 | it returns the position of a matching record with no match before it, or none when no record matches. |
| ShlokServer.GetShlokByChapterVerse | server/controllers/shlokController.js:175-189 | it returns the first record, in corpus order, whose trimmed chapter and verse equal the trimmed arguments. It returns null if and only if none does. |
| ClientFallback.StripLeadingComment | src/components/shlok/DailyShlok.js:77-85 | the cleaned text is a suffix of the text. |
| ClientFallback.StripCommentLine | src/components/shlok/DailyShlok.js:79-84 | exactly one leading `//` line is removed, and the rest is kept whole, further comment lines included. |
| ClientFallback.StripNoComment | src/components/shlok/DailyShlok.js:78-79 | text that does not start with `//` is kept. |
| ClientFallback.HeaderLineNames | src/components/shlok/DailyShlok.js:96 | the bundled header line splits into the six standard field names. |
| ClientFallback.HeaderLineIsPreamble | server/controllers/shlokController.js:76-80 | the standard header line is a preamble row for the server and a single non-blank line. |
| ClientFallback.ChapterVerseLine | server/controllers/shlokController.js:76-80 | any single line starting with `chapter,verse` is skipped by the server as preamble. It is not a comment and not blank. |
| ClientFallback.UnquoteQuote | src/components/shlok/DailyShlok.js:153-156 | unquoting undoes quoting and leaves quote-free text alone. |
| ClientFallback.RecordFromHeadersKeys | src/components/shlok/DailyShlok.js:149-161 | the object has exactly one key per header name. |
| ClientFallback.RecordFromHeadersValues | src/components/shlok/DailyShlok.js:150-160 | a header that is not repeated later maps to its own field, unquoted, or to `""` past the last field. Extra fields are ignored. |
| ClientFallback.FillRecord | src/components/shlok/DailyShlok.js:149-161 | the `forEach` loop builds the object `RecordFromHeaders(headers, fields)`. |
| ClientFallback.AsFieldsLookup | src/components/shlok/DailyShlok.js:150-161 | each of the six standard keys reads back its own field of the record. |
| ClientFallback.StandardObject | src/components/shlok/DailyShlok.js:150-161 | under the six standard headers the object has the six standard keys, filled column by column. |
| ClientFallback.StandardRecord | src/components/shlok/DailyShlok.js:146-161 | with the standard headers and a row of five or more columns, the page's object is the server's record of that row. |
| ClientFallback.FallbackRows | src/components/shlok/DailyShlok.js:72-97 | text shorter than 10 characters is the too-short error, and only such text is. Longer text is accepted if and only if it has at least two non-blank rows after the stripped comment, and is otherwise the not-enough-rows error. The accepted rows are those non-blank rows. |
| ClientFallback.RequireFields | src/components/shlok/DailyShlok.js:167-174 | the object is accepted if and only if `sanskrit` and `english_meaning` are non-empty; otherwise the missing-fields error is raised. |
| ClientFallback.FallbackDaily | src/components/shlok/DailyShlok.js:72-174 | short text is the too-short error. A result always has non-empty Sanskrit and English text. |
| ClientFallback.FallbackKeys | src/components/shlok/DailyShlok.js:96-161 | the keys of the resulting object are exactly the names in the header row. |
| ClientFallback.FallbackOfRows | src/components/shlok/DailyShlok.js:96-174 | once the rows are prepared, the outcome is the required-field check applied to the object built from the data row at `DailyIndexForDate` over the number of data rows. |
| ClientFallback.LocalDailyShlok | src/components/shlok/DailyShlok.js:72-174 | the fallback block, with `parseCSV` and the `forEach`, returns `FallbackDaily(text, date)`. |
| ClientFallback.Displayed | src/components/shlok/DailyShlok.js:195-206 | after one run of the effect the page shows the fallback's verse, or, when loading throws, the verse already on screen. That is the default verse on the first load, and the previous verse when the effect re-runs for a new user. |
| ClientFallback.DisplayedHasText | src/components/shlok/DailyShlok.js:168-199 | whatever the file holds, if the verse on screen has Sanskrit and English text, the verse shown after the run has them too. |
| ClientFallback.DefaultHasText | src/components/shlok/DailyShlok.js:9-23 | the verse on screen at the first load is 2:47, with non-empty Sanskrit and English text. |
| ClientFallback.RowsWith | src/components/shlok/DailyShlok.js:77-93 | a file of an optional comment, a header line and data lines, with or without a final newline, yields the rows `[header] + data`. |
| ClientFallback.FileCorpus | server/controllers/shlokController.js:71-104 | for an optional `//` line, a header line and non-blank data lines whose first is not preamble, with or without a final newline, the server's corpus is the records of the data lines. |
| ClientFallback.ServerPicksDataLine | server/controllers/shlokController.js:71-162 | for such a file the server's corpus is one record per data line, and it picks the record of the data line at `DailyIndexForDate` over the number of data lines. |
| ClientFallback.ClientPicksDataLine | src/components/shlok/DailyShlok.js:72-174 | for such a file with the standard header, the page builds the server's record of that same data line. |
| ClientFallback.PickStandard | src/components/shlok/DailyShlok.js:96-161 | under the standard header, the object picked from the rows is the server record of the data line at the date's index. |
| ClientFallback.RequireShlokFields | src/components/shlok/DailyShlok.js:167-174 | on a server record, the required-field check passes if and only if its Sanskrit and English texts are non-empty. |
| ClientFallback.ClientAgreesWithServer | src/components/shlok/DailyShlok.js:99-114 | the file is at most one `//` line, the standard header, and data lines of five or more columns. The first data line is not preamble, and there is an optional final newline. For it the server and the page's fallback pick the same record, and the page shows it unless its Sanskrit or English text is empty. |
| ClientFallback.ShortRowShrinksCorpus | src/components/shlok/DailyShlok.js:97-114 | one data line with fewer than five columns makes the server's corpus smaller than the page's data rows, while the page's rows still hold every line. |
| ClientFallback.PreambleLookingLineSkipped | server/controllers/shlokController.js:75-82 | when the first data line holds `chapter,verse` or starts with `//` and the second does neither, the server's corpus is the records of the later data lines only, and is smaller than the page's data rows, which still hold every line. |
| ClientFallback.IsVerseBookmarked | src/components/shlok/DailyShlok.js:187-191 | the verse counts as bookmarked if and only if some bookmark has the same chapter and verse. |
| ClientFallback.RemoveVerse | src/components/shlok/DailyShlok.js:221-227 | removal keeps exactly the bookmarks of other verses, and none of the removed verse remain. |
| ClientFallback.RemoveVerseShortens | src/components/shlok/DailyShlok.js:221-227 | the verse is bookmarked if and only if removal shortens the list. Otherwise the list is unchanged. The remaining bookmarks keep their order. |
| ClientFallback.RemoveVerseInOrder | src/components/shlok/DailyShlok.js:221-227 | the bookmarks left after `filter` are a subsequence of the original list, so their order is kept. |
| Sanitize.EscapeEach | src/utils/sanitize.js:24-30 | escaping character by character leaves no `<`, `>`, `"` or `'` and never shortens the text. |
| Sanitize.EscapeChar | src/utils/sanitize.js:25-30 | a single character escapes to its entity, because no later `replace` touches an entity an earlier one produced. |
| Sanitize.EscapeIsPerChar | src/utils/sanitize.js:25-30 | the chain of five `replace` calls, `&` first, escapes each character on its own, keeping the others in order. |
| Sanitize.EscapeAppend | src/utils/sanitize.js:25-30 | escaping distributes over concatenation. |
| Sanitize.EscapeIdentity | src/utils/sanitize.js:25-30 | a text is unchanged if and only if it holds none of the five special characters. |
| Sanitize.UnescapeEscape | src/utils/sanitize.js:25-30 | decoding the five entities recovers the escaped text. |
| Sanitize.SanitizeString | src/utils/sanitize.js:18-31 | falsy input gives `""`, and the result never contains `<`, `>`, `"` or `'`. |
| Sanitize.SanitizeStringRoundTrip | src/utils/sanitize.js:19-30 | for truthy input, decoding the result gives back `String(input)`. |
| Sanitize.EmailPatternIff | src/utils/sanitize.js:11 | the email pattern matches if and only if there is exactly one `@` with a non-empty local part before it. The domain must use only `[A-Za-z0-9.-]` and end in a dot, at least two letters, and at least one character before that dot. |
| Sanitize.EmailShapeMatches | src/utils/sanitize.js:11 | the deterministic reading implies the pattern. |
| Sanitize.MatchesEmailShape | src/utils/sanitize.js:11 | any split that matches the pattern implies the deterministic reading. |
| Sanitize.PatternHasNoSpecial | src/utils/sanitize.js:11 | a matching address holds none of the five characters `sanitizeString` escapes. |
| Sanitize.SanitizedEmailValidity | src/utils/sanitize.js:18-41 | an address is valid after `sanitizeString` if and only if it was valid before. |
| Sanitize.TimePatternMeaning | src/utils/sanitize.js:106 | the time pattern holds if and only if the hour has one or two digits with value at most 23, followed by a colon and two minute digits with value at most 59. |
| Sanitize.TimeExampleValid | src/utils/sanitize.js:102-108 | `"7:05"` is a valid time. |
| Sanitize.TimeExampleBadHour | src/utils/sanitize.js:102-108 | `"24:00"` is rejected. |
| Sanitize.TimeExampleShortMinute | src/utils/sanitize.js:102-108 | `"7:5"` is rejected. |
| Sanitize.SanitizeFilename | src/utils/sanitize.js:73-80 | the result holds no slash, backslash, `?`, `%`, `*`, `:`, vertical bar, `"`, `<` or `>`, and does not start with `.`. |
| Sanitize.FilenameSubsequence | src/utils/sanitize.js:77-79 | the result is a subsequence of the input. |
| Sanitize.FilenameIdempotent | src/utils/sanitize.js:73-80 | sanitising a sanitised name changes nothing. |
| Sanitize.StripTagsNoTag | src/utils/sanitize.js:136 | text without `<` has no tags to remove. |
| Sanitize.CreateSafeDisplayName | src/utils/sanitize.js:131-139 | non-string input gives `""`. |
| Sanitize.DisplayNameSafe | src/utils/sanitize.js:135-138 | every character is a word character, white space, `.`, `,`, `'` or `-`, and there is no white space at either end. |
| Sanitize.DisplayNameIdempotent | src/utils/sanitize.js:131-139 | a safe display name is its own safe display name. |
| Sanitize.SanitizeValue | src/utils/sanitize.js:146-162 | non-objects come back unchanged, and an object keeps exactly its keys. |
| Sanitize.SanitizeObject | src/utils/sanitize.js:146-162 | the `forEach` over the copy returns `SanitizeValue(obj)`. The input is a value, so it is not mutated. |
| Sanitize.SanitizeProperty | src/utils/sanitize.js:154-158 | one property: a string is escaped, an object is sanitised recursively, and anything else is kept. |
| Sanitize.SanitizeValueClean | src/utils/sanitize.js:146-162 | every string in the copy, at any depth, is free of `<`, `>`, `"` and `'`. |
| Sanitize.SanitizeValueRoundTrip | src/utils/sanitize.js:146-162 | decoding the copy's strings gives back the original object, so only strings were touched. |
| Sanitize.FirstFailingIsFirst | src/utils/sanitize.js:186-215 | a field gets no error if and only if every rule passes. Otherwise its error comes from the failing rule that is first in the order required, email, time, url, minLength, maxLength, pattern. |
| Sanitize.SanitizeInput | src/utils/sanitize.js:179-183 | a string input is escaped and decodes back to itself, and any other value is kept. |
| Sanitize.SanitizedOfAdd | src/utils/sanitize.js:174-183 | handling one more field adds exactly its sanitised value. |
| Sanitize.ErrorsOfAdd | src/utils/sanitize.js:174-215 | handling one more field adds exactly its error, if it has one. |
| Sanitize.Validate | src/utils/sanitize.js:170-222 | `sanitizedInputs` has exactly the input's keys, and each field has at most one error, its first failing rule. `isValid` holds if and only if no field has an error. |
| Sanitize.CheckField | src/utils/sanitize.js:186-215 | the `if … else if` chain stores the message of the first failing rule. |
| Sanitize.ValidateAndSanitizeInputs | src/utils/sanitize.js:170-222 | the `forEach` loop returns `Validate(inputs, validations)`. |
| ServerSanitize.SanitizeServerInput | server/index.js:152-164 | strings are escaped with the five entities in the browser's order, and any other value is returned as it is. |
| ServerSanitize.ServerEscapesLikeClient | server/index.js:158-163 | the server's escaping equals the browser's `sanitizeString` on every string, the empty one included. |
| ServerSanitize.RewriteInPlace | server/index.js:167-178 | null or a non-object is left alone, and an object keeps its keys. |
| ServerSanitize.ServerObjectLikeClient | server/index.js:167-178 | the server's in-place rewrite leaves the same tree as the browser's copying `sanitizeObject`. |
| ServerSanitize.RewriteKeepsLeaves | server/index.js:172-178 | a string property is escaped, a non-string leaf is kept, and a nested object keeps its keys. |
| ServerSanitize.Request.constructor | server/index.js:133 | the request holds the given query and body. |
| ServerSanitize.Request.SanitizeRequest | server/index.js:133-149 | the query keeps its keys. Each string parameter is replaced by its escaped form, and other values stay. A truthy body is rewritten by `sanitizeObject`. |
| ServerSanitize.QueryClean | server/index.js:135-141 | after the middleware, a string query parameter holds no `<`, `>`, `"` or `'` and decodes back to what was sent. |
| Notifications.PadStart2 | server/controllers/notificationController.js:14-15 | text of two or more characters is kept. Shorter text is left-filled with `0` to exactly two. |
| Notifications.FormatNeedsColon | server/controllers/notificationController.js:38-42 | formatting a stored time fails, where the source throws on the missing minute, if and only if the time has no `:`. |
| Notifications.PaddingExample | server/controllers/notificationController.js:14-49 | a stored `8:5` formats to `08:05`, which is the key at 08:05 UTC. |
| Notifications.FormatNumbers | server/controllers/notificationController.js:38-42 | a time stored as `H:M` formats to the current-time key of those numbers. |
| Notifications.CurrentTimeKeyInjective | server/controllers/notificationController.js:14-16 | below 100, different hours or minutes give different keys. |
| Notifications.StoredTimeMatches | server/controllers/notificationController.js:38-49 | a time `H:M`, with or without padding, matches the current key if and only if the hour and minute are equal. |
| Notifications.UsersToNotifySpec | server/controllers/notificationController.js:32-56 | the check throws if and only if some user has a stored time without `:`. Otherwise `usersToNotify` is exactly the users with a time that matches, in snapshot order. |
| Notifications.PrefixThrows | server/controllers/notificationController.js:32-56 | once a user's time throws, the whole snapshot throws. |
| Notifications.CheckUser | server/controllers/notificationController.js:33-55 | one user: skipped without a time, an error on a time without `:`, otherwise compared with the key. |
| Notifications.SelectUsers | server/controllers/notificationController.js:27-56 | the `forEach` returns `UsersToNotify(users, currentTime)`. |
| Notifications.NotificationBody | server/controllers/notificationController.js:76-80 | with Sanskrit text the body is `chapter:verse - `, then the first 50 characters of the Sanskrit, then `...`. Otherwise it is the fixed sentence. |
| Notifications.CountersAddUp | server/controllers/notificationController.js:83-115 | every user is counted once, either as sent or as one error entry. Only users with a token can be sent to. |
| Notifications.SendTo | server/controllers/notificationController.js:84-114 | one iteration: send when the user has a token. The outcome is no error on success, the service's error entry on failure, and the no-token entry without a token. |
| Notifications.SendAll | server/controllers/notificationController.js:83-115 | the loop's counter and error list are `SentCount` and `SendErrors` of the users. |
| Notifications.CheckAndSendSpec | server/controllers/notificationController.js:60-122 | the check throws if and only if some stored time lacks `:`. With nobody due the result is the fixed success report, whatever the corpus. An empty corpus with someone due throws. `totalProcessed` is the number of users due, `totalSent` plus the number of errors equals `totalProcessed`, and `errors` is absent rather than empty. |
| Notifications.CheckAndSendNotifications | server/controllers/notificationController.js:8-127 | the controller returns `CheckAndSend(...)` for the given users, UTC time, corpus, date and send outcomes. |
| Bookmarks.Remove | src/components/bookmarks/BookmarksList.js:44-67 | removal never lengthens the list. With nobody signed in, or when the identity test throws, the local list stays as it was. |
| Bookmarks.RemoveMembers | src/components/bookmarks/BookmarksList.js:54-63 | removal drops exactly the entries whose `(chapter, verse, timestamp.seconds)` equals the target's. |
| Bookmarks.RemoveSplits | src/components/bookmarks/BookmarksList.js:54-63 | removing from a concatenation removes from each part, so order is kept. |
| Bookmarks.RemoveAbsent | src/components/bookmarks/BookmarksList.js:54-63 | a list holding no entry of the target's verse is left exactly as it was. |
| Bookmarks.RemoveSingle | src/components/bookmarks/BookmarksList.js:54-63 | with exactly one entry of the target's identity, removal deletes exactly that entry. |
| Bookmarks.EditLocal | src/components/bookmarks/BookmarksList.js:76-115 | length, order, and each entry's chapter, verse and timestamp are kept. Each entry with the target's identity becomes the clicked target with `note` replaced, so its other texts are taken from the target too. The other entries are unchanged. With nobody signed in, nothing changes. |
| Bookmarks.EditStored | src/components/bookmarks/BookmarksList.js:92-104 | the second write, the rebuilt list, happens if and only if someone is signed in and the identity test does not throw. That list ends with the updated bookmark. |
| Bookmarks.EditStoredMembers | src/components/bookmarks/BookmarksList.js:92-103 | before that last entry, the stored list is the non-matching entries in order. |
| Bookmarks.EditStoredIsLocalReordered | src/components/bookmarks/BookmarksList.js:92-115 | with one matching entry, the stored list is a permutation of the local list after the edit. |
| Bookmarks.EditId | src/components/bookmarks/BookmarksList.js:69-71 | the edit id is `chapter-verse-seconds`, and a missing timestamp throws. |
| Bookmarks.RenderKey | src/components/bookmarks/BookmarksList.js:156-158 | the card key starts with `chapter-verse-`. |
| Bookmarks.EditIdIsRenderKey | src/components/bookmarks/BookmarksList.js:156-159 | for non-zero seconds the edit id equals the card key, so the edited card opens in edit mode. |
| Bookmarks.ZeroSecondsNeverEditing | src/components/bookmarks/BookmarksList.js:156-159 | with zero seconds the key falls back to the index, so a card at index > 0 never enters edit mode. |
| SignUp.ValidationMeaning | src/components/auth/SignUp.js:17-41 | there is an email error if and only if the address is invalid, and a password error if and only if the password is not strong. There is a confirm error if and only if the two passwords differ, each independently. The form passes if and only if all three hold. |
| SignUp.PasswordPriority | src/components/auth/SignUp.js:26-32 | there is at most one password message. It is "too short" if and only if the password has fewer than 8 characters, else "no uppercase" if and only if it has no `A-Z`, else "no number". |
| SignUp.PasswordExamples | src/components/auth/SignUp.js:26-32 | `Abcdefg1` passes, `Abcdef1` is too short, `abcdefg1` lacks a capital, and `Abcdefgh` lacks a digit. |
| SignUp.StoredEmailValidity | src/components/auth/SignUp.js:20-44 | the address stored escaped by `handleEmailChange` is accepted if and only if the typed address is valid. |
| SignUp.ErrorMessage | src/components/auth/SignUp.js:93-102 | `email-already-in-use` and `weak-password` each get their fixed message. Any other code shows the service's message. |
| SignUp.KnownCodesDiffer | src/components/auth/SignUp.js:94-99 | the two known codes give two different messages, whatever the service's text. |
| Login.ValidationMeaning | src/components/auth/Login.js:16-31 | there is an email error if and only if the stored address is invalid. There is a password error if and only if the password is empty or all white space. The form passes if and only if neither applies. |
| Login.PaddedEmailRefused | src/components/auth/Login.js:20-22 | an address typed with a leading space is refused, because it is checked untrimmed. |
| Login.StoredEmail | src/components/auth/Login.js:33-34 | the stored address holds no `<`, `>`, `"` or `'` and decodes back to what was typed. |
| Login.StoredEmailValidity | src/components/auth/Login.js:20-34 | the escaped stored address is accepted if and only if the typed address is valid. |
| Login.ErrorMessage | src/components/auth/Login.js:66-77 | `user-not-found` and `wrong-password` get the same message, and only they do. Only `too-many-requests` gets its own message. Every other code gets the generic one. |
| OnboardingFlow.PrefsFor | src/components/onboarding/Onboarding.js:84-99 | on the last slide the write holds the time, `notificationsEnabled = Boolean(token)`, the token only when truthy (else null) and the timestamp. On any other slide it holds only `onboardingCompleted`. |
| OnboardingFlow.CompletionWrites | src/components/onboarding/Onboarding.js:77-105 | a guest causes no write. A signed-in user causes exactly one write, to their own document. |
| OnboardingFlow.NextTarget | src/components/onboarding/Onboarding.js:54-60 | Next moves one slide forward, staying in range, and completes instead exactly on the last slide. |
| OnboardingFlow.PrevTarget | src/components/onboarding/Onboarding.js:63-67 | Back moves one slide back, and does nothing on the first slide. |
| OnboardingFlow.NextPrevInverse | src/components/onboarding/Onboarding.js:54-67 | Back undoes Next below the last slide, and Next undoes Back above the first. |
| OnboardingFlow.RunStaysInRange | src/components/onboarding/Onboarding.js:54-67 | under any run of Next, Back and dot clicks `currentSlide` stays in `[0, 2]`, and a run stops early only through Next on the last slide. |
| OnboardingFlow.VisibleControls | src/components/onboarding/Onboarding.js:143-196 | Back shows above the first slide. Exactly one of Next and Get Started shows, Get Started only on the last slide. Skip shows with Next. On the last slide the time picker shows to a signed-in user and the auth buttons to a guest. |
| OnboardingFlow.Onboarding.constructor | src/components/onboarding/Onboarding.js:22-24 | the screen starts on slide 0 with time `08:00` and nothing stored. |
| OnboardingFlow.Onboarding.CompleteOnboarding | src/components/onboarding/Onboarding.js:77-109 | it sets the visited flag, appends `CompletionWrites` for the current slide and goes to `/`. |
| OnboardingFlow.Onboarding.NextSlide | src/components/onboarding/Onboarding.js:54-60 | below the last slide it moves forward and changes nothing else. On the last slide it completes. |
| OnboardingFlow.Onboarding.PrevSlide | src/components/onboarding/Onboarding.js:63-67 | `currentSlide` becomes `PrevTarget` of the old slide, and nothing else changes. |
| OnboardingFlow.Onboarding.SelectDot | src/components/onboarding/Onboarding.js:127-133 | clicking dot `i` shows slide `i`. |
| OnboardingFlow.Onboarding.SetNotificationTime | src/components/onboarding/Onboarding.js:149-154 | the picker's value becomes the chosen time. |
| OnboardingFlow.Onboarding.SkipOnboarding | src/components/onboarding/Onboarding.js:70-74 | it sets the flag, goes to `/` and writes nothing. |
| OnboardingFlow.Onboarding.GoToSignUp | src/components/onboarding/Onboarding.js:112-115 | it sets the flag and goes to `/signup`. |
| OnboardingFlow.Onboarding.ContinueAsGuest | src/components/onboarding/Onboarding.js:118-121 | it sets the flag and goes to `/`. |

## Left out

- **Clock.** `new Date()` is out. The calendar date (`getFullYear`, `getMonth`, `getDate`) and the UTC hour and minute are parameters. The timezone difference between server and browser is not modelled.
- **File system.** `fs.existsSync` and `readFileSync` are out. The two CSV paths become two optional file contents. The exception rethrown by `readShloksFromCSV` on a read error is not modelled.
- **Randomness.** `Math.random()` in `getRandomShlok` becomes a fraction `num/den` in `[0, 1)`.
- **Firebase and the network.** The Firestore snapshot, FCM `send`, the Auth calls and `fetch` are out:
  - the users are a parameter;
  - each send's outcome is a function parameter;
  - an Onboarding write is recorded in `writes` and never fails, so the `catch` at src/components/onboarding/Onboarding.js:101-104 is not modelled;
  - `requestNotificationPermission` is a token parameter;
  - the API branch of the page's loader (src/components/shlok/DailyShlok.js:38-54) is out.
- **Persistence.** `arrayRemove` and `updateDoc` are out. The bookmark model covers the lists the component computes.
- Bookmarks.EditStored and Bookmarks.Remove: the first write, `updateDoc` with `arrayRemove(bookmark)`, is not modelled. In the source it runs before the identity filter. When that filter throws on an entry without a timestamp, the stored array has already lost the bookmark, while the local list still shows it and, for an edit, the updated copy is never written back.
- **Foreign parsers.**
  - The `URL` parser behind `isValidUrl` is a predicate parameter, and `new RegExp(pattern).test` is a parameter too.
  - `sanitizeUrl` and `sanitizeHTML` (DOM) are not part of this model.
- **JavaScript values.**
  - Values are undefined, null, booleans, integers, strings and plain objects.
  - Arrays, floating-point numbers and `NaN` are out.
  - Object key order is out: objects are maps.
- **ServerSanitize.RewriteInPlace:** the server's `sanitizeObject` mutates a shared object graph. It is modelled on tree values, so aliasing and cyclic objects are out.
- **Sanitize.IsValidEmail:** non-string truthy values are matched as `String(email)`, which is modelled only for the scalar values above.
- **Unicode.** A Dafny `string` is a sequence of Unicode scalar values, while a JavaScript string is a sequence of UTF-16 code units. The two agree only for text inside the Basic Multilingual Plane. A character outside it, such as an emoji, counts once here and twice in JavaScript. Lone surrogates cannot be represented at all. Regex `\s` and `trim` use one fixed set of white-space characters, not the full Unicode set. `\w` is ASCII.
- SignUp.PasswordError, Sanitize.Fails and Notifications.NotificationBody: `length` and `substring` are counted in characters, not UTF-16 code units. For text outside the Basic Multilingual Plane, the length rules (`password.length < 8`, `minLength`, `maxLength`), the 50-unit cut of the Sanskrit text and the 10-character check on the fallback file can decide differently from JavaScript. For example, `Abcde1` plus one emoji is 8 units long in JavaScript and passes, but is 7 characters here and is refused as too short. `CharCodeSum` likewise sums scalar values, not code units.
- **UI glue.** React rendering, `useState` scheduling, `alert`, `localStorage` and routing are out. The visited flag and the route are fields of the onboarding class. Error-message state is the returned text.
- **Server plumbing.** Helmet, CSP, CORS, rate limiting, the cron schedule and Express routing are out. `sendNotificationToUser` is not part of this model.
- **Login.ValidationMeaning and SignUp.ValidationMeaning** use the address as stored. The `email.trim()` applied only when the address is sent to Auth is out.
- **Notifications.CheckAndSendNotifications:** the verse is `getDailyShlok` applied to a corpus parameter. It does not reload the file.
