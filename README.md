# email-cleaner, modelled in Dafny

The script `delete_gmail_emails.py` cleans up a Gmail category in three steps:

- For each configured label (`CATEGORY_PROMOTIONS`) it asks the mail service for the messages matching `category:<last segment of the label, lower-cased>`.
- It prints a folder report: how many messages there are, the sum of their size estimates, the first five (sender, subject) pairs numbered from 1, and how many more were not shown.
- It asks the operator for confirmation. Only when the answer, stripped and lower-cased, is `yes` does it list each label again and delete every listed message, one call at a time.

This project models that decision and aggregation logic. The mail service becomes plain data:

- The answers to list calls are parameters. The report pass deletes nothing, so its answers are one function `string -> seq<Message>`, from query to listed messages.
- The delete pass gets a `Deletion.Listing`, `(nat, string) -> seq<Message>`. Call number k, made for query q, lists `listing(k, q)`. Each label's call comes after the earlier labels' deletions, so two calls for the same query may be answered differently.
- The two passes get separate answers, because the mailbox may change between them.
- A `Message` joins what the list call and the metadata fetch return: an id, an optional `sizeEstimate` and an optional header list.
- The mailbox the delete pass changes is a class `Deletion.Service`. It holds the ids still present, and a ghost log of the delete calls issued that the contracts speak about.

Modules, one per concern of the script:

- `Text` (`text.dfy`): ASCII models of `str.lower`, `str.split(sep)[-1]` and `str.strip()`.
- `Messages` (`messages.dfy`): the message record, the `next(...)` header lookup with its placeholders, and the size default.
- `Query` (`query.dfy`): the search query derived from a label. Both passes use this one definition.
- `Report` (`report.dfy`): the per-message aggregation loop, the sample loop, the per-label report and the loop over labels.
- `Deletion` (`deletion.dfy`): the service class, the per-message delete loop and the loop over labels.
- `Cleaner` (`cleaner.dfy`): the confirmation gate and the entry point `Run`.

## Model

| member | source | states |
|---|---|---|
| `Text.Lower` | delete_gmail_emails.py:38 | `lower()` keeps the length and lower-cases each character in place; no upper-case ASCII letter is left |
| `Text.LastSegmentIsTail` | delete_gmail_emails.py:38 | `split('_')[-1]` is the longest `_`-free tail of the label: either the whole label, or the text right after its last `_` (empty when the label ends with `_`) |
| `Text.LastSegmentWhole` | delete_gmail_emails.py:38 | a label without `_` is its own last segment |
| `Text.LastSegmentAfter` | delete_gmail_emails.py:38 | whatever follows the last `_` is the last segment |
| `Text.LastSegment` | delete_gmail_emails.py:38 | the last piece of `split('_')`; `LastSegmentIsTail`, `LastSegmentWhole` and `LastSegmentAfter` pin it down as the longest `_`-free tail |
| `Text.StripIsTrimmedSlice` | delete_gmail_emails.py:110 | `strip()` returns a slice of the input with only whitespace cut from each side |
| `Text.StripEnds` | delete_gmail_emails.py:110 | what `strip()` returns neither starts nor ends with whitespace |
| `Text.StripPadded` | delete_gmail_emails.py:110 | the converse: any text with no whitespace at its ends, padded by whitespace, is exactly what `strip()` returns |
| `Text.TrimStart` | delete_gmail_emails.py:110 | the result is a tail of the input; everything cut off in front is whitespace, and the result does not start with whitespace |
| `Text.TrimEnd` | delete_gmail_emails.py:110 | the result is a head of the input; everything cut off at the end is whitespace, and the result does not end with whitespace |
| `Text.Strip` | delete_gmail_emails.py:110 | `strip()`; `StripIsTrimmedSlice`, `StripEnds` and `StripPadded` show it is the input with exactly its leading and trailing whitespace removed |
| `Messages.HeaderValue` | delete_gmail_emails.py:83-84 | the lookup gives the value of the first header whose name matches exactly, or the default when no header matches |
| `Messages.HeaderValueAppend` | delete_gmail_emails.py:83-84 | a lookup in `front + back` is a lookup in `front` that falls back to `back`, so a later duplicate header never wins |
| `Messages.HeaderLookupExamples` | delete_gmail_emails.py:82-84 | a missing payload or header list gives `(No Subject)` / `(Unknown Sender)`; a header named `subject` does not match `Subject`; of two `Subject` headers the first wins |
| `Messages.SizeOf` | delete_gmail_emails.py:79 | a message's size estimate, 0 when missing; `Report.TotalSizeIgnoresMissing` shows such messages add nothing |
| `Messages.HeadersOf` | delete_gmail_emails.py:82 | a message's header list, empty when the payload or its headers are missing; `HeaderLookupExamples` shows both give the placeholders |
| `Messages.SubjectOf` | delete_gmail_emails.py:83 | the first `Subject` header's value or `(No Subject)`, by the contract of `HeaderValue` |
| `Messages.SenderOf` | delete_gmail_emails.py:84 | the first `From` header's value or `(Unknown Sender)`, by the contract of `HeaderValue` |
| `Query.CategoryQueryShape` | delete_gmail_emails.py:38 | the delete-pass query is `category:` followed by the lower-cased last `_`-segment of the label |
| `Query.CategoryQueryWholeLabel` | delete_gmail_emails.py:62 | the report-pass query of a label without `_` is `category:` plus the whole label, lower-cased |
| `Query.PromotionsQuery` | delete_gmail_emails.py:13 | the configured label `CATEGORY_PROMOTIONS` queries `category:promotions` |
| `Query.CategoryQuery` | delete_gmail_emails.py:38 | the one query derivation both passes use (lines 38 and 62); `CategoryQueryShape` states its shape |
| `Report.TotalSizeAppend` | delete_gmail_emails.py:79 | the size total of two runs of messages is the sum of their totals |
| `Report.TotalSizeNonNegative` | delete_gmail_emails.py:70-79 | the total starts at 0, so it is non-negative when every estimate is |
| `Report.TotalSizeIgnoresMissing` | delete_gmail_emails.py:79 | messages without a `sizeEstimate` add 0 to the total |
| `Report.SummarySample` | delete_gmail_emails.py:94-95 | the sample has min(5, N) lines; line i is numbered i+1 and pairs message i's sender with message i's subject |
| `Report.SummaryAccountsForAll` | delete_gmail_emails.py:90-98 | the count is N; the remainder note appears if and only if N > 5, with N − 5; shown lines plus the note's number equal N |
| `Report.SevenMessagesExample` | delete_gmail_emails.py:70-98 | seven messages of 100 to 700 bytes give count 7, total 2800, five sample lines and a note of 2 more |
| `Report.TotalSize` | delete_gmail_emails.py:70-79 | the running size total; `Aggregate` is proved to compute it, and `TotalSizeAppend`, `TotalSizeNonNegative` and `TotalSizeIgnoresMissing` state its properties |
| `Report.SubjectsOf` | delete_gmail_emails.py:83-86 | the subjects collected, one per message in list order, as the ensures of `Aggregate` states |
| `Report.SendersOf` | delete_gmail_emails.py:84-87 | the senders collected, one per message in list order, as the ensures of `Aggregate` states |
| `Report.SampleOf` | delete_gmail_emails.py:94-95 | the sample lines; `SampleLines` is proved to compute them and `SummarySample` gives their number and content |
| `Report.NotShown` | delete_gmail_emails.py:97-98 | the remainder note; `SummaryAccountsForAll` shows it appears exactly when N > 5, with N − 5 |
| `Report.Summarize` | delete_gmail_emails.py:89-98 | the folder report of a listing; `SummarySample`, `SummaryAccountsForAll` and `SevenMessagesExample` state its content |
| `Report.ReportFor` | delete_gmail_emails.py:66-98 | the outcome for one label; `Gather` is proved to compute it |
| `Report.ReportsFor` | delete_gmail_emails.py:60-98 | one outcome per label from its query's listing; `GetFolderDetails` is proved to compute it, and `Cleaner.DeletionsMatchReport` relates it to the delete plan |
| `Report.Aggregate` | delete_gmail_emails.py:74-87 | the per-message loop returns the size total, plus exactly one subject and one sender per listed message, in list order |
| `Report.SampleLines` | delete_gmail_emails.py:94-95 | the display loop yields min(5, number of pairs) lines; line i is numbered i+1 and shows the i-th sender with the i-th subject |
| `Report.Gather` | delete_gmail_emails.py:66-98 | a label with no listed messages gives "no emails"; otherwise it gives the folder report of its messages |
| `Report.GetFolderDetails` | delete_gmail_emails.py:60-64 | one report per label, in label order, each built from the listing for that label's query |
| `Deletion.Service.Delete` | delete_gmail_emails.py:49 | one delete call removes that id from the mailbox and nothing else, and is logged |
| `Deletion.DeleteAll` | delete_gmail_emails.py:48-49 | one delete call per listed message, in list order; the mailbox afterwards is the mailbox before minus the listed ids |
| `Deletion.DeleteEmails` | delete_gmail_emails.py:36-50 | the delete calls are the listed ids label after label; exactly those ids leave the mailbox |
| `Deletion.Ids` | delete_gmail_emails.py:48-49 | the ids of the listed messages in list order; `DeleteAll` issues exactly these delete calls |
| `Deletion.PlannedDeletions` | delete_gmail_emails.py:36-49 | the delete calls of the whole pass, label by label, each label from its own list call; `DeleteEmails` is proved to issue them, `PlannedDeletionsAppend` and `EmptyLabelIsSkipped` state how labels combine |
| `Deletion.SameQueryListedAfresh` | delete_gmail_emails.py:36-49 | two labels with the same query make two list calls; when the second lists nothing because the first call's message is gone, the message is deleted once |
| `Deletion.PlannedDeletionsAppend` | delete_gmail_emails.py:36 | the delete plan for two runs of labels is the first run's plan followed by the second's, whose list calls come after the first run's |
| `Deletion.EmptyLabelIsSkipped` | delete_gmail_emails.py:42-44 | a label with nothing listed adds no delete call, and the labels after it are still processed |
| `Cleaner.ShouldDeleteIff` | delete_gmail_emails.py:110-111 | deletion proceeds if and only if the answer is `yes`, in any ASCII case, with nothing but whitespace around it |
| `Cleaner.ShouldDelete` | delete_gmail_emails.py:110-111 | the confirmation test; `ShouldDeleteIff` characterises it in both directions |
| `Cleaner.ConfiguredQueries` | delete_gmail_emails.py:13 | the configured labels yield the single query `category:promotions` |
| `Cleaner.PlainYesConfirms` | delete_gmail_emails.py:110-112 | `yes` proceeds |
| `Cleaner.PaddedCapitalYesConfirms` | delete_gmail_emails.py:110-112 | `  YES ` proceeds: case and surrounding whitespace do not matter |
| `Cleaner.ShortAnswersCancel` | delete_gmail_emails.py:110-114 | any answer shorter than three characters cancels (`""`, `y`, `no`, `No`) |
| `Cleaner.UnpaddedAnswer` | delete_gmail_emails.py:110-111 | an answer with no whitespace at its ends proceeds exactly when it is `yes` in some case |
| `Cleaner.TrailingTextCancels` | delete_gmail_emails.py:110-114 | `Yes please` and `yes!` cancel |
| `Cleaner.DeletionsMatchReport` | delete_gmail_emails.py:62-64 | if each label's list call in the delete pass is answered as its query was in the report pass, the number of delete calls equals the number of messages the report counted, because both passes derive the same query |
| `Cleaner.Run` | delete_gmail_emails.py:100-114 | the reports are always produced; the delete pass over the configured labels runs exactly when `ShouldDelete(answer)`; otherwise no delete call is issued and the mailbox is unchanged |

## Left out

- Authentication (`authenticate_gmail`, lines 15-30): the OAuth flow, the token file and the credential refresh are I/O and vendor library calls.
- The remote API chain (`service.users().messages()...execute()`): list results are parameters, and the metadata fetch is folded into the listed `Message` records. Remote failures are not modelled. These include network errors, an expired credential and a not-found on delete, and in the script each of them aborts the run. `Deletion.Service.Delete` of an absent id removes nothing.
- `Report.Aggregate`: the metadata fetch for each message is assumed to succeed. In the script a failed fetch raises and stops the report.
- The `maxResults=500` cap on the report listing and the service's default page size on the delete listing. Both are server behaviour, and a listing may return any number of messages.
- The KB/MB figures (line 91): these are floating-point divisions printed to two decimals. Only the integer byte total is modelled.
- The printed text and the interactive `input()` read. The answer is a parameter of `Cleaner.Run`, and reports are returned as values.
- `Text.Lower`: only ASCII case-folding is modelled. Python's Unicode `lower()` also lower-cases non-ASCII capitals.
- `Text.StripIsTrimmedSlice`: only ASCII whitespace is stripped (space, characters 9-13 and 28-31). Python's `strip()` also removes non-ASCII whitespace such as `\x85` and `\xa0`.
- The script takes the `sizeEstimate` field through `int(...)`. The model takes it as an integer already.
- The payload and its header list are collapsed into one optional header list. A missing payload and a payload without headers both read as no headers, as they do in the script.
- The script does not keep the report listing and the delete listing consistent, and the model does not assume they are. `Cleaner.DeletionsMatchReport` states what holds when they happen to agree.
- The answers to list calls are not tied to the mailbox held by `Deletion.Service`: a listed id need not be present. The report pass sees one answer per query, so a change to the mailbox during that pass is not modelled.
