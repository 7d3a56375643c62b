# Weekday interview scheduling scripts, modelled in Dafny

The repository ships two Airtable scripts as strings in `constants.ts`.

- The **data splitter** (`TASK_1_SCRIPT`) runs over the "Interviews" table. It takes every *master* record, meaning one whose "Round Name" is empty. If the master's "Interview Rounds" cell is non-empty, the splitter makes one new record per round name. Each new record copies the master's cells and gets the Calendly link for that round. Then it deletes the master. Records are created in calls of at most fifty, and only after that are masters deleted, again in calls of at most fifty.
- The **mail automation** (`TASK_2_SCRIPT`) sends one interview invitation through MailerSend. When MailerSend accepts the mail, the script writes the send time and the turnaround (TAT) into the record.

The model is split into these modules:

| module | file | what it holds |
|---|---|---|
| `Optional` | option.dfy | `Option`, for an Airtable cell that may be missing |
| `Text` | text.dfy | the split on bars and commas, `trim()`, the length filter, `toLowerCase()` and `includes()` on strings |
| `Links` | links.dfy | the first-match keyword chain that picks a Calendly link |
| `Batches` | batches.dfy | slicing a work list into calls of at most fifty |
| `Airtable` | table.dfy | the table: a `Table` class whose fields are the records in order, the next fresh id and a log of create, delete and update calls |
| `Splitter` | splitter.dfy | the splitter |
| `Tat` | tat.dfy | `calculateTAT` |
| `Dispatch` | dispatch.dfy | `sendInvite` after `fetch` has answered |

The splitter is modelled imperatively, as the script is written:

- `Splitter.Collect` and `Splitter.PushRounds` are the two nested `for` loops. They push onto the work lists.
- `Splitter.CreateInBatches` and `Splitter.DeleteInBatches` are the two `while` loops. Each one sends `slice(0, 50)` and keeps `slice(50)`.
- Each of these methods, and `Splitter.Split` around them, is proved against a specification function:
  - `AllExploded` and `DeletionQueue` describe the work lists;
  - `Chunks` describes the batches;
  - `AfterSplit` describes the table after a run.
- The lemmas then state what a run means.

Tokenising, link resolution and `calculateTAT` are expressions in the script, so they are functions here.

Numbers are modelled as follows:

- Timestamps are integer milliseconds.
- "TAT (Hours)" is an integer number of hundredths of an hour, so 150 stands for 1.50 hours.
- HTTP statuses are natural numbers.

Where the code and its surrounding description disagree, the model follows the code:

- **Empty rounds cell.** A master whose "Interview Rounds" cell is empty is skipped by the `continue` at `constants.ts:39`. It is therefore neither split nor deleted.
- **No round names.** A non-empty cell that yields no round name, such as `" | , "`, still gets its master deleted, and nothing is created.
- **No deduplication.** `"HR, HR"` gives two records. The app's text claims deduplication, but the code has none.

## Model

| member | source | states |
|---|---|---|
| Text.TrimMeaning | constants.ts:42 | `trim()` cuts whitespace from both ends only: the result is a contiguous slice of the input; everything before and after it is whitespace; when non-empty, it starts and ends with non-whitespace |
| Text.TrimKeepsDelimiterFree | constants.ts:42 | trimming a piece without bars or commas introduces neither |
| Text.SplitJoin | constants.ts:42 | the split on bars and commas loses nothing: the pieces, rejoined with the separators that were cut out, give back the input, and there is one piece more than separators |
| Text.SegmentsDelimiterFree | constants.ts:42 | no piece of the split holds a bar or a comma |
| Text.SegmentsOfDelimiterFree | constants.ts:42 | a string without separators splits into itself alone |
| Text.SegmentsAppend | constants.ts:42 | splitting at a separator is splitting each side: the pieces keep their left-to-right order |
| Text.CleanKeepsClean | constants.ts:42 | after trim and the length filter, every piece left is non-empty and trimmed, and separator-free pieces stay separator-free |
| Text.CleanAppend | constants.ts:42 | trim-and-filter works piece by piece, so the order of the pieces is kept |
| Text.TokensAreClean | constants.ts:42 | every round name is non-empty, has no whitespace at either end, and contains neither a bar nor a comma |
| Text.TokenizeAppend | constants.ts:42 | the round names of `a` + separator + `b` are those of `a` followed by those of `b` |
| Text.TokenizeSingle | constants.ts:42 | a cell without separators gives its trimmed text as the only name, or no name when that is empty |
| Text.TrimPadded | constants.ts:42 | whitespace around a trimmed text is cut away exactly |
| Text.TrimBlank | constants.ts:42 | an all-whitespace piece trims to the empty string |
| Text.TokenizeOne | constants.ts:42 | a padded name without separators gives exactly that name |
| Text.TokenizeNone | constants.ts:42 | a blank piece gives no name |
| Text.TokenizeOnePadded | constants.ts:42 | a name followed by blanks gives exactly that name |
| Text.TokenizeLast | constants.ts:42 | `" " + t + ", "` gives `[t]`: the empty piece after the trailing comma is dropped |
| Text.TokenizeTwo | constants.ts:42 | `first`, a bar between spaces, `second` and a trailing comma and space give `[first, second]`, in that order |
| Text.TokenizeExample | constants.ts:42 | the header's rounds "HR", a bar, "Tech", followed by a trailing comma, give `["HR", "Tech"]` |
| Text.TokenizeToken | constants.ts:42 | a trimmed name without separators gives itself |
| Text.TokenizeKeepsDuplicates | constants.ts:42 | `"R, R"` gives `[R, R]`: nothing is deduplicated |
| Text.TokenizeBlank | constants.ts:42 | a cell of blanks and separators only gives no names |
| Text.TrimStartMeaning | constants.ts:42 | the leading-whitespace cut removes exactly the leading whitespace |
| Text.TrimEndMeaning | constants.ts:42 | the trailing-whitespace cut removes exactly the trailing whitespace |
| Text.ToLowerMeaning | constants.ts:47 | `toLowerCase()` keeps the length, maps each character on its own, leaves no capital A to Z, and is idempotent |
| Text.ContainsMeaning | constants.ts:49-53 | `includes(p)` holds exactly when `p` occurs at some position |
| Text.OccursShift | constants.ts:49-53 | an occurrence in the tail is an occurrence in the whole, one place later, and the converse |
| Links.FirstMatchIndex | constants.ts:49-55 | the index found is that of the first rule that fires: no earlier rule fires, and the rule found does |
| Links.ClassifyIsFirstMatch | constants.ts:49-55 | the script's if / else-if chain is exactly first-match over the ordered rules "hr", "tech", "hiring manager" or "hm" |
| Links.ResolveLink | constants.ts:46-55 | the link is "" or the (empty-if-missing) value of one of the three Calendly columns |
| Links.ResolveLinkFirstMatch | constants.ts:46-55 | the link is the column named by the first rule that fires on the lower-cased name, and "" when no rule fires |
| Links.MissingLinksResolveEmpty | constants.ts:50-54 | with every link column missing, each round gets "" (a missing cell reads as "") |
| Links.MissingLetter | constants.ts:49-53 | a name lacking one of a keyword's letters does not contain it |
| Links.OnlyFalseStart | constants.ts:49-53 | a name whose only copy of a keyword's first letter is at its start, before a different letter, does not contain it |
| Links.HrRoundClassified | constants.ts:49-50 | "hr round" takes the HR rule |
| Links.TechnicalClassified | constants.ts:51-52 | "technical" takes the Tech rule |
| Links.HiringManagerClassified | constants.ts:53-54 | "hiring manager" takes the Hiring Manager rule |
| Links.HmRoundClassified | constants.ts:53-54 | "hm round" takes the Hiring Manager rule |
| Links.CultureFitClassified | constants.ts:46-55 | "culture fit" matches no rule |
| Links.ResolveLinkExamples | constants.ts:46-55 | "HR Round" gets the HR link, "Technical" the Tech link, "Hiring Manager" and "HM Round" the Hiring Manager link, and "Culture Fit" gets "" |
| Links.KeywordInsideWord | constants.ts:49-50 | keywords match inside words: "Tech Walkthrough" contains "hr", so it gets the HR link before the Tech rule is tried |
| Batches.TakeDrop | constants.ts:80-81 | the slice sent and the slice kept make up the list |
| Batches.ChunksBounded | constants.ts:79-82 | every batch a drain loop sends holds between one and fifty items |
| Batches.ChunksFlatten | constants.ts:79-82 | the batches concatenated are the list, in order |
| Batches.ChunksFull | constants.ts:79-82 | every batch but the last is full |
| Batches.ChunksCount | constants.ts:79-82 | there are ⌈n / 50⌉ batches |
| Batches.ChunksOf120 | constants.ts:79-82 | 120 items go out as items 0-49, 50-99 and 100-119 |
| Airtable.NumberedMembers | constants.ts:80 | each created record holds one of the rows sent, under an id at or after the next fresh id |
| Airtable.NumberedAppend | constants.ts:80 | creating in two calls numbers the records as one call would |
| Airtable.SameId | constants.ts:87 | records of the table are determined by their ids |
| Airtable.WithoutMembers | constants.ts:87 | what survives a delete is exactly the records whose ids were not listed |
| Airtable.WithoutKeepsOrder | constants.ts:87 | a delete keeps the ids of the table in increasing order |
| Airtable.WithoutConcat | constants.ts:87 | a delete acts on each part of the table separately |
| Airtable.WithoutTwice | constants.ts:86-89 | deleting in two calls is deleting all the ids at once |
| Airtable.WithoutAbsent | constants.ts:87 | ids that are not in the table delete nothing |
| Airtable.Find | constants.ts:166 | the position found holds the id, and no earlier record does |
| Airtable.FindFinds | constants.ts:166 | the record is found exactly when its id is in the table |
| Airtable.StampKeepsIds | constants.ts:166-169 | an update keeps every id in its place, and changes nothing when the id is absent |
| Airtable.StampTouchesOnlyThatRecord | constants.ts:166-169 | an update changes only the record with that id, and in it only "Mail Sent Time" and "TAT (Hours)" |
| Airtable.Table.constructor | constants.ts:19-25 | the table as loaded: the initial rows under ids 0, 1, ..., with an empty call log |
| Airtable.Table.CreateRecords | constants.ts:80 | `createRecordsAsync`: appends the batch under fresh consecutive ids and logs one create call |
| Airtable.Table.DeleteRecords | constants.ts:87 | `deleteRecordsAsync`: removes the records with those ids, keeps the others in order, and logs one delete call |
| Airtable.Table.UpdateRecord | constants.ts:166-169 | `updateRecordAsync`: the call is logged whatever the id; it stamps both cells of the record with that id, or reports an unknown id as refused and leaves the rows as they were |
| Splitter.Pending | constants.ts:27 | the records processed are exactly those whose "Round Name" is missing or "" |
| Splitter.Split | constants.ts:15-93 | reports "nothing to split" exactly when no record qualifies, and then changes nothing. Otherwise the table becomes `AfterSplit`, and the log gets every create batch, then every delete batch |
| Splitter.Collect | constants.ts:35-76 | the outer loop builds `newRecords` and `recordsToDelete` for the masters in table order; masters with an empty rounds cell are skipped |
| Splitter.PushRounds | constants.ts:44-72 | the inner loop appends one record per round name, in order |
| Splitter.CreateInBatches | constants.ts:79-82 | the create loop appends every new record under fresh ids, one call per fifty |
| Splitter.DeleteInBatches | constants.ts:85-90 | the delete loop removes exactly the listed masters, one call per fifty |
| Splitter.CreateCallsShape | constants.ts:79-82 | one create call per batch, in batch order |
| Splitter.DeleteCallsShape | constants.ts:86-89 | one delete call per batch, in batch order |
| Splitter.RunCalls | constants.ts:79-90 | no delete call comes before a create call; every call carries 1 to 50 items; there are ⌈created / 50⌉ + ⌈deleted / 50⌉ calls; and nothing else is called |
| Splitter.RoundRecordsShape | constants.ts:44-71 | the inner loop's k-th record is the one built for the k-th round name |
| Splitter.ExplodeShape | constants.ts:44-71 | a master with K round names gives K records. The k-th has the k-th name as "Round Name" and the link that name resolves to. It has the master's name, email, role, rounds, "Added On" and three Calendly cells, and empty mail cells |
| Splitter.DuplicateRoundsKept | constants.ts:42-71 | "R, R" gives two records, both for round R |
| Splitter.BlankRoundsExplodeToNothing | constants.ts:39-75 | a cell of blanks and separators gives no record, yet the master counts as having rounds, so it is queued for deletion |
| Splitter.AllExplodedAppend | constants.ts:35-76 | the records of earlier masters precede those of later masters |
| Splitter.CreatedAreSplit | constants.ts:65 | every created record has a non-empty, trimmed "Round Name" |
| Splitter.DeletionQueueMembers | constants.ts:39-75 | the ids queued for deletion are exactly those of the processed masters with a non-empty rounds cell |
| Splitter.NoRoundsNoWork | constants.ts:39 | masters without rounds give nothing to create and nothing to delete |
| Splitter.Kept | constants.ts:39-90 | a record already in the table survives a run exactly when it is not a master with a non-empty rounds cell |
| Splitter.AfterSplitShape | constants.ts:79-90 | after a run the table is the old records minus the deleted masters, in their order, followed by all created records under fresh ids |
| Splitter.SecondRunNothingToDo | constants.ts:27-90 | a second run right after a run creates and deletes nothing |
| Tat.CalculateTat | constants.ts:126-132 | the turnaround is 0 exactly when less than half a hundredth of an hour has passed; otherwise it is the number r of hundredths with the elapsed time within half a hundredth of r |
| Tat.NeverNegativeElapsed | constants.ts:131 | a send time at or before "Added On" gives 0 |
| Tat.NearestHundredth | constants.ts:129-131 | for a non-negative elapsed time, no hundredth of an hour is closer to it than the result |
| Tat.Monotone | constants.ts:126-132 | a later send never gives a smaller turnaround |
| Tat.Examples | constants.ts:126-132 | equal times give 0.00; ninety minutes give 1.50; 17 999 ms give 0.00 and 18 000 ms give 0.01 |
| Dispatch.SubjectParts | constants.ts:140 | the subject is "Interview Invitation: ", then the role, then " - ", then the round name, each at its own place |
| Dispatch.SubjectInjective | constants.ts:140 | for roles of equal length, equal subjects mean equal roles and rounds |
| Dispatch.Decide | constants.ts:156-175 | the record is to be updated exactly when the status is 200 or 202, and then with the record id and the send time; any other status raises the API failure with its body; a rejected request raises its own error |
| Dispatch.DecidedTurnaround | constants.ts:160-162 | the turnaround written is `calculateTAT` of "Added On" and the send time, and is 0 when the send is not later than "Added On" |
| Dispatch.OnlyTwoStatusesAccepted | constants.ts:156 | 201 and 204 are refused like 400 and 500 |
| Dispatch.DecimalRoundTrip | constants.ts:174 | the status printed in the error message is all digits, has no leading zero and reads back as the status |
| Dispatch.ApiFailureMessageParts | constants.ts:174 | the error message is "MailerSend API failed with status ", then the status in decimal, then ": ", then the body MailerSend returned |
| Dispatch.ApiFailureMessageExample | constants.ts:174 | status 500 with body "oops" gives "MailerSend API failed with status 500: oops" |
| Dispatch.SendInvite | constants.ts:145-179 | a refused or failed send ends in its error and leaves the table and the log as they were. An accepted send makes one update call, logged, that stamps both cells together; the run ends "sent", unless the record is missing, in which case the update's error is rethrown and no row is written |
| Dispatch.WrittenIffAccepted | constants.ts:156-169 | the table changes only after an accepted send, and then the record gets "Mail Sent Time" = the send time and "TAT (Hours)" = `calculateTAT` of "Added On" and that time |

## Left out

- `App.tsx` is left out. It is the React page that displays the scripts and holds no logic of the core.
- The Airtable and MailerSend APIs are not called: `selectRecordsAsync`, `createRecordsAsync`, `deleteRecordsAsync`, `updateRecordAsync` and `fetch`.
  - The table is an in-memory `Table`. Each create, delete and update call appends to its log, a refused update included; the `selectRecordsAsync` query and `fetch` are not logged.
  - The HTTP exchange is an input, `Fetched`, and the clock is the parameter `now`.
  - So latency, partial failure of a batch call and retries are not modelled.
- A batch call that fails part-way through a splitter run is not modelled. In the script, the rejected promise ends the run, and any create batches already sent stay in place.
- `response.text()` is modelled as the body carried in `Fetched`. A failure while reading that body is not modelled.
- The e-mail's text and HTML bodies, its sender, the API key and the request headers are not modelled. They are display strings and configuration, with nothing to check.
- The console text is not modelled; `Split`'s `Report` says which of the splitter's two messages (constants.ts:30, constants.ts:92) a run ends with.
- Dates, numbers and text are simplified:
  - Dates are integer milliseconds. `new Date(...)` parsing, `toISOString()`, and the "Invalid Date"/NaN cases are not modelled. With an unparseable "Added On", the script passes NaN as "TAT (Hours)" to `updateRecordAsync`; what Airtable does with it is not modelled.
  - Tat.CalculateTat: the script divides as floating point, then applies `toFixed(2)` and `parseFloat`. The model computes the same rounding on integers: half up for non-negative values, clamped at 0. Binary floating-point rounding of values that sit exactly on a tie is not reproduced.
  - Text.ToLower and Text.Trim follow ECMAScript only partly. Lower-casing covers the ASCII letters only. Trimming uses the ECMAScript whitespace and line-terminator code points, with no Unicode normalisation.
- Concurrency is not modelled: two automation runs interleaving, or the same invitation sent twice. Nothing in the script guards against either.
- Airtable.Table.DeleteRecords: the model removes listed ids that exist and ignores absent ones. It does not model the error Airtable raises for an unknown id. Every id the splitter deletes belongs to a record read in the same run.
- Airtable.Table.CreateRecords: new ids are modelled as consecutive numbers after every id already in use. Airtable's record ids are opaque strings; only freshness and distinctness matter here.
- The limit of fifty items per call is a precondition of the two batch methods (`|batch| <= BATCH_SIZE`). The splitter never exceeds it. What Airtable does with a larger batch is not modelled.
- The splitter reads only the selected fields (`constants.ts:19-25`). "Mail Sent Time" and "TAT (Hours)" are not copied into the records it creates, so the model leaves them empty.
