# WhatsApp chat formatter, modelled in Dafny

This project models the core of `chat_formatter.py`. That script turns an
exported WhatsApp chat into training records for a language model, in four
steps:

1. **Extraction** (`extract_messages`). A regular expression finds every
   message header `date, time - sender: `. The body runs up to the next
   header-shaped date/time or the end of the text, and is stripped of
   surrounding whitespace.
2. **Filtering** (`filter_messages`). Rows are dropped when their body holds
   the media placeholder `<Media omitted>` (case-sensitive), or either
   deletion notice (`deleted this message`, `message was deleted`) in any
   letter case.
3. **Grouping** (`format_chat`, lines 88-89). Every date is parsed with the
   `%m/%d/%y` format, and the rows are grouped by calendar day in ascending
   order.
4. **Packing** (`format_chat`, lines 93-123). Each day's messages are folded
   greedily into speaker-tagged chunks. A chunk grows while the token count
   of the open chunk plus the next message block stays under the budget.
   Every chunk becomes one record `(date, start time, chat name, text)`.

The modules follow that pipeline:

- `Frames`: frames as sequences of rows, and boolean-mask selection `Where`.
- `Text`: character classes, maximal runs, `str.strip`, containment, ASCII lower-casing.
- `Messages`: the message row and `filter_messages`.
- `Extraction`: the regular expression as an explicit left-to-right scan, and `extract_messages`.
- `Days`: calendar dates, the `%m/%d/%y` parser and `groupby` on the day.
- `Packing`: one step of the packing loop, its fold over a day, and a declarative description of the split it makes.
- `Greedy`: proof that the greedy conditions fix the split uniquely.
- `Formatting`: `format_chat` as a method with the source's two nested loops. It is proved equal to a functional specification, and the output properties are proved about that specification.

The token counter (`calculate_token_length`, a tokenizer call) is a parameter
`count: string -> nat`. Nothing is assumed about it, so every packing property
holds for any counter.

Packing is specified twice:

- operationally, as the fold `Run` of `Step` that the loop computes;
- declaratively, by `GreedySplit`. Its parts concatenate to the day's messages. Every prefix of a part that the loop checked fits the budget. Each later part starts with a message that did not fit after the part before it.

`Packing.PackDayShape` proves that the fold renders a greedy split.
`Greedy.GreedySplitUnique` proves that there is only one such split.

## Model

| member | source | states |
|---|---|---|
| Text.Strip | chat_formatter.py:60 | the result is a slice of the input with only whitespace removed before and after it, and it neither starts nor ends with whitespace |
| Text.StripUnique | chat_formatter.py:60 | any slice with only whitespace around it and none at its ends is the stripped text, so `strip` is characterised completely |
| Text.StripFinalNewline | chat_formatter.py:58-60 | dropping a final line break does not change the stripped text |
| Messages.FilterMessages | chat_formatter.py:33-46 | the kept rows are exactly the rows satisfying `Keep`, in their original order; any row whose body satisfies `Keep` is kept |
| Messages.MasksCompose | chat_formatter.py:43-45 | the three successive mask selections equal a single selection by the conjunction of the three tests |
| Messages.MediaPlaceholderDropped | chat_formatter.py:43 | a row whose body is the media placeholder is dropped |
| Messages.Keep | chat_formatter.py:43-45 | no contract: the conjunction of the three masks' tests; `FilterMessages` and `MasksCompose` prove that the filter keeps exactly the rows satisfying it, and the lemmas below show it refusing each phrase |
| Messages.DeletedThisDropped | chat_formatter.py:44 | a body containing `deleted this message` anywhere, in any letter case, fails the second mask and is dropped |
| Messages.WasDeletedDropped | chat_formatter.py:45 | a body containing `message was deleted` anywhere, in any letter case, fails the third mask and is dropped |
| Messages.YouDeletedDropped | chat_formatter.py:44 | the sender's own notice `You deleted this message` is dropped whatever its letter case |
| Messages.DeletionNoticeDropped | chat_formatter.py:45 | the recipient's notice `This message was deleted` is dropped whatever its letter case |
| Text.ContainsIgnoreCase | chat_formatter.py:44-45 | no contract: a search of the lower-cased text for a lower-case pattern; `Messages.DeletedThisDropped` and `Messages.WasDeletedDropped` show it finding a phrase in any letter case |
| Extraction.TimeTailEnd | chat_formatter.py:58 | the end found for `\s*[APM]*M? - ` lies at or after its start, and a ` - ` separator sits there |
| Extraction.TimeTailEndMatches | chat_formatter.py:58 | the end found is the end of a real match of `\s*[APM]*M? - ` |
| Extraction.TimeTailEndUnique | chat_formatter.py:58 | every match of `\s*[APM]*M? - ` ends where `TimeTailEnd` says, so the time field cannot end anywhere else |
| Extraction.DigitsThen | chat_formatter.py:58 | a digit run found has the allowed length and its separator follows; `DigitsThenMatches` characterises it completely |
| Extraction.DigitsThenMatches | chat_formatter.py:58 | the group `\d{lo,hi}` followed by a non-digit separator is found ending at `j` exactly when s[i..j] holds `lo` to `hi` digits and the separator sits at `j`, so the maximal run is the pattern's only match |
| Extraction.DateEnd | chat_formatter.py:58 | a date group found ends inside the text with room for its `, `; `DateEndMatches` characterises it completely |
| Extraction.DateEndMatches | chat_formatter.py:58 | the date group is found with its year ending at `y` exactly when `\d{1,2}/\d{1,2}/\d{2,4}, ` matches there with the year ending at `y` |
| Extraction.TimeEnd | chat_formatter.py:58 | a time group found ends after its start, with ` - ` following; `TimeEndMatches` characterises it completely |
| Extraction.TimeEndMatches | chat_formatter.py:58 | the time group is found ending at `e` exactly when `\d{1,2}:\d{2}\s*[APM]*M?` matches from its start to `e` with ` - ` following |
| Extraction.DateTimeAt | chat_formatter.py:58 | a date/time prefix found ends with ` - ` and lies inside the text; `DateTimeAtMatches` characterises it completely |
| Extraction.DateTimeAtMatches | chat_formatter.py:58 | the prefix is found at `i` with date, time and end `st` exactly when the pattern's date/time prefix matches at `i` with those captures and that end |
| Extraction.StampAfter | chat_formatter.py:58 | the time part found after a date ends with ` - ` inside the text; `StampAfterMatches` characterises it completely |
| Extraction.StampAfterMatches | chat_formatter.py:58 | after a date s[i..y] and its `, `, the prefix `st` is found exactly when the time group matches there and `st` holds the two captures and the end of its ` - ` |
| Extraction.SenderAfter | chat_formatter.py:58 | a sender found leaves the body start inside the text, after the prefix; `SenderAfterMatches` characterises it completely |
| Extraction.SenderAfterMatches | chat_formatter.py:58 | the sender part completes the header `h` exactly when `([^:]+): ` matches after the prefix with `h`'s sender and body start, and `h` keeps the prefix's date and time |
| Extraction.HeaderAt | chat_formatter.py:58 | a header found lies where a date/time prefix is found, and its body starts inside the text after it; `HeaderAtMatches` characterises it completely |
| Extraction.HeaderAtMatches | chat_formatter.py:58 | a header is found at `i` with captures `h` exactly when `(date), (time) - (sender): ` matches at `i` with `h`'s date, time and sender and its body starting at `h.bodyStart` |
| Extraction.AtBoundary | chat_formatter.py:58 | no contract: the lookahead's test; `AtBoundaryMatches` proves it equivalent to `(?=P\|$)`, and `NextBoundary` and `NextBoundaryEarliest` that the body stops at the first such position |
| Extraction.AtBoundaryMatches | chat_formatter.py:58 | the lookahead succeeds at `b` exactly when the date/time prefix matches there with some captures, or `$` matches (the end, or just before a final line break) |
| Extraction.NextBoundary | chat_formatter.py:58 | the body ends at a boundary: the start of a date/time prefix, the end of the text, or just before a final line break |
| Extraction.NextBoundaryEarliest | chat_formatter.py:58 | no boundary lies between the body's start and its end, so the lazy `(.*?)` stops at the first boundary |
| Extraction.FinalNewlineBody | chat_formatter.py:58-60 | whether `$` stops before the final line break or after it, the stripped body is the same |
| Extraction.MatchAt | chat_formatter.py:58-60 | a match consumes at least one character, and its body is stripped |
| Extraction.FindAll | chat_formatter.py:59 | every found row comes from a successful match attempt at or after the starting position |
| Extraction.FindAllSkips | chat_formatter.py:59 | positions where no match starts contribute nothing |
| Extraction.Attempt | chat_formatter.py:59 | each match attempt advances the scan, so `findall` terminates |
| Extraction.Scan | chat_formatter.py:59-60 | every extracted body is stripped |
| Extraction.ExtractMessages | chat_formatter.py:48-62 | every row returned has a stripped body and passes the filter |
| Extraction.ScanSkips | chat_formatter.py:59 | text before the next header yields no rows |
| Extraction.ScanNext | chat_formatter.py:58-60 | the first header found gives the next row, with its date, time and sender and the stripped body up to the next boundary; the scan then continues from that boundary |
| Extraction.NoHeaderNoMessages | chat_formatter.py:58-62 | a text without any header yields no rows |
| Extraction.PrefixDropped | chat_formatter.py:58-62 | text before the first header is ignored |
| Days.ValidDate | chat_formatter.py:88 | no contract: a month from 1 to 12 and a day that exists in that month of that year; `ParseDate`, `ParseDateFields` and the leap-day lemmas show the parser enforcing it |
| Days.Century | chat_formatter.py:88 | for a two-digit year the result lies in 1969-2068 and ends in those two digits, and it is in the 2000s exactly for 00-68 (the `%y` pivot) |
| Days.ParseDate | chat_formatter.py:88 | a parsed date is a real calendar date with a year from 1969 to 2068 |
| Days.ParseDateFields | chat_formatter.py:88 | a text of the form `m/d/yy` with 1-2 digit month and day parses to that date exactly when the date exists; two-digit years 69-99 fall in the 1900s and 00-68 in the 2000s |
| Days.ParseFormatDate | chat_formatter.py:88 | round trip: every date in the parser's range, written as `m/d/yy`, parses back to itself |
| Days.ParseDateMonthFirst | chat_formatter.py:88 | `12/31/99` is December 31, 1999: month first |
| Days.ParseDateDayFirstRefused | chat_formatter.py:88 | `31/12/99` is refused: there is no month 31 |
| Days.ParseDateTwoDigitYear | chat_formatter.py:88 | `3/4/24` is March 4, 2024 |
| Days.ParseDateFourDigitYearRefused | chat_formatter.py:88 | `3/4/2024` is refused, although the extraction pattern accepts four-digit years |
| Days.ParseDateLeapDay | chat_formatter.py:88 | February 29 exists in 2024 |
| Days.ParseDateNoLeapDay | chat_formatter.py:88 | February 29 is refused in 2023 |
| Days.ParseDates | chat_formatter.py:88 | the column converts exactly when every row's date parses; each row then keeps its message and gets its own parsed day |
| Days.Insert | chat_formatter.py:89 | inserting a key keeps the keys strictly ascending and adds exactly that key |
| Days.Keys | chat_formatter.py:89 | the group keys are strictly ascending and are exactly the days that occur |
| Days.GroupByDay | chat_formatter.py:89 | groups come in strictly ascending day order; each group holds exactly that day's rows in their original order, and is non-empty; every row's day has a group |
| Packing.ChatHeader | chat_formatter.py:94 | no contract: `<chat> name </chat>` and a line break; `PackDayHeaders` and `RendersHeaders` show every chunk starting with it |
| Packing.Begin | chat_formatter.py:94-96 | no contract: the loop state before a day's first row, with the header only, no previous sender, no start time and no finished chunks; `RunTracks` starts from it |
| Packing.Block | chat_formatter.py:102-108 | no contract: the text a row adds, a ` <br>` continuation, a closing tag and a new turn, or the first turn; `BlockExtends`, `TurnsSnoc` and `SameSenderFits` characterise it |
| Packing.Step | chat_formatter.py:99-117 | no contract: one row of the inner loop; `StepFits`, `StepOverflows` and `StepKeepsDone` state what it does to the loop state, and `RunTracks` ties it to the greedy split |
| Packing.Run | chat_formatter.py:98-117 | no contract: the inner loop as a fold of `Step`; `RunSnoc`, `RunTracks`, `DoneGrows` and `PackDayShape` characterise it |
| Packing.PackDay | chat_formatter.py:93-120 | a day always yields at least one chunk |
| Packing.TurnsSnoc | chat_formatter.py:102-112 | appending a message to a part appends that message's block to its rendering |
| Packing.AdmittedSnoc | chat_formatter.py:111-112 | a message that fits keeps every checked prefix of the part within budget |
| Packing.FitsKeepsSplit | chat_formatter.py:111-112 | a message that fits extends the last part, and the split stays greedy |
| Packing.ExtendLastAdmitted | chat_formatter.py:111-112 | extending the open part by a message that fits keeps every part within budget at each check |
| Packing.ExtendLastBoundaries | chat_formatter.py:111-117 | extending the open part leaves every earlier chunk boundary forced by an overflow |
| Packing.OverflowKeepsSplit | chat_formatter.py:113-117 | a message that does not fit starts a new part, and the split stays greedy |
| Packing.FitsKeepsClosed | chat_formatter.py:111-112 | extending the open part leaves the closed chunks as they were |
| Packing.OverflowClosed | chat_formatter.py:113-117 | an overflow closes the open chunk with the new sender's tag and the start time of its first message |
| Packing.BlockExtends | chat_formatter.py:102-108 | the open chunk plus the next block is the rendering of the part with that message added |
| Packing.StepFits | chat_formatter.py:111-112 | a step whose check passes keeps the loop state in step with the extended greedy split |
| Packing.StepOverflows | chat_formatter.py:113-117 | a step whose check fails keeps the loop state in step with the split that gains a new part |
| Packing.OverflowStart | chat_formatter.py:100-117 | the start time of the closed chunk is the time of its part's first message |
| Packing.RunTracks | chat_formatter.py:98-117 | after any prefix of the day, the loop state matches the greedy split: the closed chunks render the closed parts; the open chunk is the header plus the open part's turns; the last sender and start time are those of the open part |
| Packing.PackDayShape | chat_formatter.py:93-120 | the chunks of a day render a greedy split of its messages: one chunk per part, each the header plus the part's turns plus a closing tag, with the part's first time as start |
| Packing.TracksRender | chat_formatter.py:119-120 | closing the open chunk at the end of the day completes the rendering of the split |
| Packing.OpenRenders | chat_formatter.py:119-120 | the chunk closed after the loop is the last part rendered after the header, closed with the last sender's tag, with the part's start time |
| Packing.RunSnoc | chat_formatter.py:98 | the fold over one more message is one more step |
| Packing.StepKeepsDone | chat_formatter.py:113-114 | a step never alters finished chunks |
| Packing.RunSnocDone | chat_formatter.py:113-114 | one more message keeps the finished chunks as a prefix |
| Packing.DoneGrowsAppend | chat_formatter.py:98-117 | the chunks finished after some messages are a prefix of those finished after more |
| Packing.DoneGrows | chat_formatter.py:98-117 | the chunks finished after any prefix of the day are a prefix of those finished after the whole day |
| Packing.PackDayHeaders | chat_formatter.py:94-120 | every chunk starts with the chat header; on a non-empty day every chunk has a start time and ends with a closing sender tag |
| Packing.RendersHeaders | chat_formatter.py:94-120 | any rendering of a split has the chat header, start times and closing tags |
| Packing.FirstOverBudget | chat_formatter.py:100-117 | if the first message alone exceeds the budget, the first chunk is the bare header closed with that sender's tag |
| Packing.MismatchedCloseTag | chat_formatter.py:105-116 | when a second speaker's block overflows, the first chunk is closed with the second speaker's tag, not the first's |
| Packing.ScenarioLargeBudget | chat_formatter.py:98-120 | under an unlimited budget, two messages from one sender and one from another make one chunk joined by ` <br>` and a speaker change |
| Packing.SameSenderFits | chat_formatter.py:102-112 | a same-sender message that fits is appended after ` <br>` under the open turn |
| Packing.ScenarioTinyBudget | chat_formatter.py:98-120 | when nothing fits, three messages make four chunks: a bare header, then one chunk per message, the last two closed with the later sender's tag |
| Greedy.DropLastPart | chat_formatter.py:113-117 | a one-message last part was opened by an overflow, and what precedes it is a greedy split |
| Greedy.ShrinkLastPart | chat_formatter.py:111-112 | removing the last message from a longer last part leaves a greedy split |
| Greedy.LastPartFits | chat_formatter.py:111 | a last part that was not opened by an overflow fits whole |
| Greedy.FitsIsCheck | chat_formatter.py:111 | the greedy condition on the open part is exactly the loop's budget check |
| Greedy.PartsFits | chat_formatter.py:111-112 | a last message that fits joins the open part of the packer's split |
| Greedy.PartsOverflow | chat_formatter.py:113-117 | a last message that does not fit opens its own part |
| Greedy.GreedySplitUnique | chat_formatter.py:98-117 | every split meeting the greedy conditions is the packer's split |
| Greedy.PackDayDetermined | chat_formatter.py:93-120 | the chunks of a day render every greedy split of its messages, so the greedy conditions alone determine the output |
| Formatting.Records | chat_formatter.py:91-123 | no contract: the records of the groups, group after group; `RecordsAscending`, `RecordsOfDay` and `RecordsHeaded` characterise it |
| Formatting.FormatChatSpec | chat_formatter.py:76-125 | no contract: the functional description of `format_chat`; `FormatChat` is proved equal to it, and `FormatChatFails`, `FormatChatOrder` and `FormatChatDay` state its properties |
| Formatting.DayRecords | chat_formatter.py:122-123 | one record per chunk, in chunk order, each carrying the day, the chunk's start time, the chat name and the chunk text |
| Formatting.PackGroup | chat_formatter.py:93-120 | the loop over one day's rows yields the chunks of the fold `PackDay` |
| Formatting.FormatGroups | chat_formatter.py:91-123 | the loop over the groups emits, group after group, the records of each day's chunks |
| Formatting.FormatChat | chat_formatter.py:76-125 | the method returns no frame when a date does not parse; otherwise it returns the records of the grouped and packed rows |
| Formatting.RecordsAscending | chat_formatter.py:89-123 | records of ascending groups come in non-decreasing date order, and each date is a group's day |
| Formatting.RecordsBefore | chat_formatter.py:89-123 | records of groups before a day are all dated before it |
| Formatting.RecordsOfDay | chat_formatter.py:89-123 | the records dated on a group's day are exactly that group's records, in chunk order |
| Formatting.RecordsOfLastDay | chat_formatter.py:89-123 | the records dated on the last group's day are exactly that group's records |
| Formatting.RecordsOfEarlierDay | chat_formatter.py:89-123 | later groups add no records to an earlier day |
| Formatting.RecordsHeaded | chat_formatter.py:122-123 | every record carries the chat name, a start time, the chat header and a closing tag |
| Formatting.PackerHeaded | chat_formatter.py:93-120 | the chunks of a non-empty day all have a header, a start time and a closing tag |
| Formatting.FormatChatFails | chat_formatter.py:88 | formatting fails exactly when some row's date does not parse |
| Formatting.FormatChatOrder | chat_formatter.py:89-123 | the output is in non-decreasing date order, and every record has the chat name, a start time, the chat header and a closing sender tag |
| Formatting.RowDayRecords | chat_formatter.py:89-123 | the records dated on a row's day are the records of packing all that day's rows in input order |
| Formatting.FormatChatDay | chat_formatter.py:88-123 | the records dated on any input row's day are the records of packing all rows with that date, in input order |

## Left out

- Reading chat files, the command-line entry point and writing the JSON output (lines 20-31 and 127-212) are I/O and are not modelled.
- `calculate_token_length` (lines 64-74) calls the tokenizer. It is the parameter `count`, and nothing is assumed about it.
- Loading the tokenizer in the constructor (line 18) is not modelled, because the counter is a parameter.
- The `tqdm` progress bar (line 92) has no effect on the result.
- `reset_index(drop=True)` (line 46) renumbers row labels. Frames here are plain sequences without labels.
- Line 88 overwrites the caller's `date` column in place. The model pairs each message with its parsed day (`Days.Dated`) instead of mutating the caller's frame.
- A date that does not parse makes pandas raise. The model returns `None` from `FormatChat` instead.
- `\d` is modelled on the ASCII digits. Other Unicode decimal digits, which Python's `\d` also accepts, are not modelled. `\s` and `strip()` use the full `str.isspace` set.
- `case=False` is modelled as ASCII case folding. Python's full Unicode case folding is not modelled.
- The result records hold the day as a `Date` value. The pandas/`datetime` types are not modelled.
- The sort of all records across files in `main` (line 156) and `chat_with_ai.py` are not part of this model.
- Packing.PackDay: an empty day renders its closing tag as `None`, as the f-string would. `groupby` never yields an empty group, so this case only keeps the function total.

## Quirks of the code the model reproduces

The model follows the code in each of these cases.

- **Closing tags are not balanced.** `previous_sender` is updated (line 109) before the budget check (line 111). A chunk closed by an overflow therefore ends with the *new* speaker's tag (line 114). See `Packing.MismatchedCloseTag` and `Packing.ScenarioTinyBudget`.
- **An overflowing first message leaves a bare-header chunk.** When the first message of a day does not fit, the first chunk is the header followed by a closing tag. A budget too small for anything therefore yields one more chunk than there are messages: four chunks for three messages (`Packing.ScenarioTinyBudget`, `Packing.FirstOverBudget`).
- **The budget check excludes the closing tag.** The check is on the open chunk plus the next block, before ` </sender>` is appended. A finished chunk may therefore count at or above the budget.
- **Dates are month first.** `%m/%d/%y` reads `12/31/99` as December 31. Day-first dates above 12 are refused (`Days.ParseDateDayFirstRefused`).
- **The year formats disagree.** The extraction pattern accepts 2-4 year digits, but `%y` takes exactly two. A four-digit year makes the whole formatting step fail (`Days.ParseDateFourDigitYearRefused`, `Formatting.FormatChatFails`).
- **The test at line 119 is always true.** `if current_chunk:` always holds, because every open chunk starts with the non-empty chat header. `Formatting.PackGroup` keeps the test.
