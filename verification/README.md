# Unsubscribe pipeline, modelled in Dafny

A model of the core of the Gmail "unsubscribe" tool. The tool looks up a
folder (a Gmail label) by name and reads the journal of messages fetched
earlier. It splits those messages into the ones that carry a
`List-Unsubscribe` header and the ones that do not. It groups the first
kind by sender. For each group it acts on the targets named in the first
message's `List-Unsubscribe` header: `mailto:` targets get an unsubscribe
e-mail, any other target gets a GET request. Every call to the Gmail service
goes through one of two wrappers:

- `Safe` turns an exception into an absent value.
- `Retry` calls again on rate limits (HTTP 429) and on cancellations. On a
  429 it sleeps until the instant the server names in its error message.

The tool also collects a folder page by page into a journal, and deletes
ids in batches of at most 1000.

The Gmail service is replaced by the answers its calls give:

- scripted outcomes of successive calls (`Attempt`, `Outcome`);
- scripted listing pages (`Page`);
- per-text Send attempts (`Sends`);
- a per-url verdict for GET requests (`visits`).

The clock is the `now` field of each 429 attempt, in milliseconds. A
finite script stands in for an unbounded loop. When the script runs out
while the loop would still go on, the model reports it: `StillRetrying`,
`StillSending`, `Unfinished` or `Hang`.

Modules:

- `Wrappers`: the Option and Result types.
- `Seqs`: `Flatten` and first-match search.
- `Text`: .NET string operations with ordinal semantics (`IndexOf`,
  `Split`, `Trim`, `StartsWith`, `Equals(..., OrdinalIgnoreCase)`), on
  texts as sequences of Unicode scalar values; .NET counts UTF-16 code
  units, so lengths and positions differ for characters outside the BMP.
- `Timestamps`: `DateTime.ParseExact` for `yyyy-MM-ddTHH:mm:ss.fffZ`, and
  instants in milliseconds.
- `Helpers`: `Safe`, and both variants of `Retry` (see below).
- `GmailExtensions`: BatchDelete, GetFolderId, FetchAllMessagesInFolder,
  SendUnsubscribeEmail and CreateMessageBody.
- `Program`: `Main` as `ProcessFolder`, plus ExtractUnsubscribeUrl, its own
  SendUnsubscribeEmail and FetchAllMessages.

The two variants of `Retry` are one loop with a `Policy`:

- Helpers.cs rethrows a non-429 API error (`RethrowOtherApiErrors`).
- Program.cs logs that error and calls again (`RetryOtherApiErrors`).

What the code does, and what it does not do:

- Main keeps no record of senders already handled, so a second run acts on
  the same groups again.
- The groups come in the order their senders first occur, not by size.
- A message with neither `From` nor `Reply-To` makes the key selector throw
  (`NoSender`). It does not fall into a group with an empty key.
- Main reads the journal and never fetches: its `FetchAllMessages` call is
  commented out.
- Main builds `BatchDeleteMessagesRequest` objects but never executes them.
  The one built for each group is not even passed on (line 298 passes
  `batchDeleteRequest`). So the model of Main issues no deletes, and
  `Action` has no delete.

## Model

| member | source | states |
|---|---|---|
| Helpers.Safe | Helpers.cs:7-19 | the value when the call returned, absent exactly when it threw; Safe never throws |
| Helpers.RetryAfterToken | Helpers.cs:35 | the retry-after token never holds a space |
| Helpers.TokenBeforeParenthesis | Helpers.cs:35 | for a message "pre token (rest)" with no '(' in pre, the token read is exactly the last word before the first '(' |
| Helpers.HeadBeforeParenthesis | Helpers.cs:35 | the text before the first '(' of such a message is "pre token " |
| Helpers.LastWordAfterTrimStart | Helpers.cs:35 | the last space-separated word of "pre token", once trimmed, is the token |
| Helpers.InstantBeforeParenthesis | Helpers.cs:35-42 | a retry time written in the exact format before the first " (" parses back to that instant |
| Helpers.RetryDelay | Helpers.cs:35-45 | the wait fails exactly when ParseExact rejects the retry-after token, and then with BadRetryTime of that token |
| Helpers.RetryDelayWaits | Helpers.cs:35-45 | a token that is the rendering of a valid instant gives the wait instant - now, and every wait given is of that form |
| Helpers.Handle | Helpers.cs:29-71 | one pass of the catch clauses. A value returns. A 429 sleeps exactly the delay when it is positive and within Thread.Sleep's range, and calls again at once when the delay is not positive. A cancellation calls again. A non-429 API error is rethrown by one policy and retried by the other. Anything else, or a parse failure, leaves the loop |
| Helpers.RateLimitedUntil | Helpers.cs:42-59 | with a well-formed retry time: sleep for exactly instant - now when that is positive, call again at once when it is not, and throw when the wait is above Int32.MaxValue ms |
| Helpers.Pauses | Helpers.cs:47-55 | at most one sleep per call |
| Helpers.PausesInRange | Helpers.cs:45-52 | under either policy every sleep is positive and at most Int32.MaxValue ms |
| Helpers.FirstStop | Helpers.cs:23-72 | every call before the first stop continues the loop, and the one at the stop does not |
| Helpers.FirstStopAt | Helpers.cs:23-72 | the first stop is unique: the first call that does not continue the loop |
| Helpers.RetryWith | Helpers.cs:21-73 | the loop makes (retryable failures before the first stop) + 1 calls and no call after the stop. It returns the first value or throws the first non-retried exception, and sleeps exactly the pauses of the calls it made |
| Helpers.Retry | Helpers.cs:21-73 | as RetryWith for a policy's catch clauses. It returns iff the last call made succeeded, and that call's value is the result |
| Helpers.ProgramRetryKeepsApiErrors | Program.cs:73-124 | Program.Retry never ends with an API error: only a bad retry time, an out-of-range sleep or another exception type escapes |
| Helpers.VariantsDiffer | Helpers.cs:61-66 | on [non-429 error, success], Helpers.Retry stops at the first call and rethrows; Program.Retry returns the second call's value |
| Timestamps.ParseExact | Helpers.cs:37-42 | whatever ParseExact accepts has fields in DateTime's ranges: year 1 to 9999, a real calendar day, a time of day, three-digit milliseconds |
| Timestamps.ParsedRenders | Helpers.cs:37-42 | whatever ParseExact accepts is exactly the rendering of the fields it returns |
| Timestamps.ToMillisTimeOfDay | Helpers.cs:45 | the instant is a non-negative count of milliseconds whose remainders are the millisecond, second, minute and hour fields |
| Timestamps.RenderParsed | Helpers.cs:40-42 | rendering the fields read from well-laid-out text gives that text back |
| Timestamps.ParseRender | Helpers.cs:40-42 | every valid timestamp is read back from its own text |
| Text.IndexOf | Program.cs:332-333 | -1 exactly when the char is absent; otherwise the char is at that index and at no earlier index |
| Text.IndexOfText | GmailExtensions.cs:90 | -1 exactly when the pattern occurs nowhere; otherwise its first occurrence |
| Text.Split | Helpers.cs:35 | String.Split(char) yields at least one piece |
| Text.SplitPiecesLack | GmailExtensions.cs:88-89 | no piece of a split holds the separator |
| Text.JoinSplit | Helpers.cs:35 | joining the pieces of a split with the separator gives the text back |
| Text.SplitJoin | GmailExtensions.cs:88-89 | splitting pieces that lack the separator, once joined, gives those pieces back |
| Text.SplitSecond | GmailExtensions.cs:88-89 | text holding the separator splits into at least two pieces: the text before the first separator, then the text up to the next separator or the end |
| Text.SplitHead | Helpers.cs:35 | the first piece is the text before the first separator, or the whole text |
| Text.LastPieceSuffix | Helpers.cs:35 | `Split(c).Last()` is the suffix after the last separator and holds none |
| Text.TrimStart | Helpers.cs:35 | what TrimStart drops is leading white space |
| Text.TrimStartSuffix | Helpers.cs:35 | TrimStart keeps a suffix of the text that does not start with white space |
| Text.TrimEnd | Helpers.cs:35 | what TrimEnd drops is trailing white space |
| Text.TrimEndPrefix | Helpers.cs:35 | TrimEnd keeps a prefix of the text that does not end with white space |
| Text.ToUpperMatches | GmailExtensions.cs:31 | two chars upper-case to the same char exactly when they are equal or are the lower- and upper-case forms of one ASCII letter |
| Text.EqualsIgnoreCaseLetters | GmailExtensions.cs:31 | two texts are equal ignoring case exactly when they have the same length and each pair of chars is equal or the two cases of one ASCII letter |
| Text.EqualsIgnoreCaseEquivalence | Program.cs:245 | comparing ignoring case is reflexive, symmetric and transitive |
| Text.TrimSlice | Helpers.cs:35 | Trim keeps one contiguous slice of the text. Every char cut off on either side is white space, and the slice is empty or starts and ends with a char that is not white space |
| Text.StartsWithAppend | Program.cs:274 | a text starts with a prefix exactly when it is that prefix followed by the rest; any prefix followed by anything starts with it |
| GmailExtensions.Chunks | GmailExtensions.cs:13 | every chunk holds 1 to 1000 ids, and all but the last hold exactly 1000 |
| GmailExtensions.ChunksCount | GmailExtensions.cs:13-22 | ceil(N/1000) chunks, none for no ids |
| GmailExtensions.ChunksFlatten | GmailExtensions.cs:13-22 | the chunks concatenated in call order are the ids: no gap, overlap or reordering |
| GmailExtensions.BatchDelete | GmailExtensions.cs:10-24 | the calls are the chunks in order, up to and including the first one the service rejects. With no rejection, every chunk is sent |
| GmailExtensions.GetFolderId | GmailExtensions.cs:25-34 | null exactly when the listing threw, had no labels, or had no label with that name ignoring case |
| GmailExtensions.GetFolderIdFirst | GmailExtensions.cs:31-33 | the id found is that of the first label with the name |
| GmailExtensions.RequestFor | GmailExtensions.cs:43-49 | page size 1000; the label filter is set exactly when a folder id is given, and holds only that id |
| GmailExtensions.FailedListingEndsPaging | GmailExtensions.cs:51-75 | a listing that threw yields no ids and ends the loop |
| GmailExtensions.FetchIds | GmailExtensions.cs:58-70 | at most one message per listed id |
| GmailExtensions.FetchIdsAppend | GmailExtensions.cs:58-70 | fetching two runs of ids is fetching their concatenation: messages stay in id order, and an exception stops the rest |
| GmailExtensions.Paging | GmailExtensions.cs:41-75 | at most one listing request per listing answer |
| GmailExtensions.PagingRequests | GmailExtensions.cs:38-49 | every request asks for 1000 results with the folder filter. The first carries the empty token, and each later one the non-empty next token of the answer before it |
| GmailExtensions.PagingStops | GmailExtensions.cs:73-75 | the loop goes on exactly while the next token is non-null and non-empty. A run that ends normally stops at an answer without one |
| GmailExtensions.PagingMessages | GmailExtensions.cs:58-69 | the messages are those of the first page in id order, then those of the later pages |
| GmailExtensions.PagingStep | GmailExtensions.cs:41-75 | one turn of the do-while from any position |
| GmailExtensions.PagingAdvance | GmailExtensions.cs:41-75 | what one turn adds to the run so far, and how the rest of the run goes on |
| GmailExtensions.FetchPage | GmailExtensions.cs:58-70 | the inner foreach appends the fetched messages to the journal and to the result, the same records in the same order |
| GmailExtensions.FetchAllWith | GmailExtensions.cs:35-78 | the do-while makes exactly the requests of Paging and collects its messages, and the journal grows by exactly the result |
| GmailExtensions.FetchAllMessagesInFolder | GmailExtensions.cs:35-78 | as FetchAllWith, with Helpers.Retry around each Messages.Get |
| GmailExtensions.MailtoSplit | GmailExtensions.cs:82-91 | the recipient holds no '?'. The only failure is Substring's out-of-range error |
| GmailExtensions.MailtoSplitAll | GmailExtensions.cs:82-91 | for every url, with w the text after the first ':': the recipient is w before its first '?'. The subject is what follows the first "subject=" in the text between the first and second '?' (or the end). Without "subject=" it starts 7 chars in. Substring throws OutOfRange when that start is past the query's end. Without a '?' the recipient is all of w and the subject is empty |
| GmailExtensions.MailtoQuery | GmailExtensions.cs:82-89 | "mailto:to?query" splits into to and query |
| GmailExtensions.MailtoRoundTrip | GmailExtensions.cs:82-91 | "mailto:to?subject=s" gives back to and s |
| GmailExtensions.MailtoWithoutQuery | GmailExtensions.cs:82-86 | without a '?' the recipient is the whole text after ':' and the subject is empty |
| GmailExtensions.MailtoWithoutSubjectKey | GmailExtensions.cs:90 | without "subject=", the subject is the query from index 7 on, or Substring throws when the query is shorter |
| GmailExtensions.MessageTextJoin | GmailExtensions.cs:110-112 | CreateMessageBody's text (MessageText) is the lines "From: {from}", "\nTo: {to}", "\nSubject: {subject}", "\n", "\n{body}" joined with '\r' |
| GmailExtensions.MessageTextLines | GmailExtensions.cs:112 | splitting the text at '\r' gives those five lines |
| GmailExtensions.MessageTextRoundTrip | GmailExtensions.cs:110-115 | the text is exactly "From: {from}\r\nTo: {to}\r\nSubject: {subject}\r\n\r\n{body}", and its fields read back when none holds a '\r' |
| GmailExtensions.SendUnsubscribeEmail | GmailExtensions.cs:80-108 | throws exactly when the mailto split does, with OutOfRange. Whatever the send throws is caught. It is still sending exactly when Helpers.Retry has not stopped by the last scripted attempt. When it returns, the e-mail built was the text from the split's recipient and subject |
| Program.FindHeader | Program.cs:245 | absent exactly when no header has the name (ignoring case); otherwise a header of the message with that name |
| Program.FindHeaderFirst | Program.cs:245 | the header found is the first with that name |
| Program.Where | Program.cs:245-246 | each message kept has (or lacks) the header as asked |
| Program.WhereAppend | Program.cs:245-246 | filtering keeps source order: it distributes over concatenation |
| Program.WhereMembers | Program.cs:245-246 | a message is kept iff it is in the input and has (or lacks) the header |
| Program.Partition | Program.cs:245-246 | toUnsubscribe and toDelete together are allMessages as a multiset: each message lands in exactly one |
| Program.SenderKey | Program.cs:257-265 | no key exactly when the message has neither From nor Reply-To |
| Program.SenderFrom | Program.cs:258-262 | with a From header, the key is the value of the first one |
| Program.SenderReplyTo | Program.cs:259-263 | without From, the key is the value of the first Reply-To |
| Program.KeyAll | Program.cs:257-265 | absent iff some message has no sender; otherwise each message paired with its key, in order |
| Program.GroupBy | Program.cs:257-265 | the group keys are distinct and no group is empty |
| Program.GroupByKeys | Program.cs:257-267 | the group keys are the input keys with repeats dropped, in first-occurrence order |
| Program.GroupByCovers | Program.cs:257-265 | every key of the input has a group |
| Program.GroupByMembers | Program.cs:257-265 | each group holds exactly the messages with its key, in input order |
| Program.GroupByPermutation | Program.cs:257-265 | the groups concatenated are a permutation of the input messages |
| Program.GroupByKeepsDirective | Program.cs:257-270 | every group member of toUnsubscribe carries a List-Unsubscribe header |
| Program.ExtractUnsubscribeUrl | Program.cs:327-341 | null when '<' or '>' is missing. Otherwise the text strictly between the first '<' and the first '>' when that '>' comes after the '<', and null when it does not |
| Program.ExtractBracketed | Program.cs:332-337 | "pre<url>post" with no bracket in pre and no '>' in url gives url |
| Program.NoBracketsHere | Program.cs:335-340 | "no-brackets-here" gives null |
| Program.Targets | Program.cs:271 | one target per comma-separated piece, in order, each the piece's extracted url |
| Program.SendStep | Program.cs:343-364 | sends exactly when the split succeeds and Retry returns, with the split's recipient and subject. A split failure throws that failure, a send that fails throws the send's failure, and a send still retrying hangs |
| Program.SendNeverApiError | Program.cs:363 | the send in Program.cs never ends Main with a non-429 API error |
| Program.SendUnsubscribeEmail | Program.cs:343-364 | the send's result is SendStep's, with Program.Retry around Send |
| Program.DispatchOne | Program.cs:272-291 | a null target throws. A target starting with "mailto" is sent, with SendStep's result. Only those two can throw. A visit targets a non-mailto url, and a send a mailto one |
| Program.VisitContinues | Program.cs:279-290 | a non-mailto target is visited, and the loop goes on whether or not the GET completed |
| Program.DispatchAll | Program.cs:272-292 | at most one action per target; the loop stops only on a null target, a crash or a hanging send |
| Program.DispatchAllTrace | Program.cs:272-292 | every target before the stop gave its action, in order. A stop happens at the first target that throws. A run without a stop has one action per target |
| Program.DispatchAllAppend | Program.cs:272-292 | acting on two runs of targets is acting on the first, then on the second if the first did not stop |
| Program.DispatchTargets | Program.cs:272-292 | the inner foreach does exactly what DispatchAll describes |
| Program.GroupTargets | Program.cs:269-271 | a group has targets iff its first message carries a List-Unsubscribe header. The targets are then the urls extracted from the comma-separated pieces of that header's value |
| Program.DispatchGroups | Program.cs:267-299 | at most one action per target of the groups. The loop stops for a missing List-Unsubscribe header only when some group's first message lacks it |
| Program.DispatchGroupsFlat | Program.cs:267-299 | the loop over groups is the loop over all their targets, group after group. A crash in one group ends the run |
| Program.ProcessGroups | Program.cs:267-299 | the outer foreach does exactly what DispatchGroups describes |
| Program.Plan | Program.cs:245-265 | no plan exactly when some message with a List-Unsubscribe header has no sender. Otherwise the groups have distinct senders and together are a permutation of those messages |
| Program.PlanGroups | Program.cs:257-265 | the planned groups follow the senders in the order they first occur, and each holds exactly that sender's messages, in journal order |
| Program.PlanSenders | Program.cs:257-265 | every message of a planned group has that group's sender as its key |
| Program.MembersWithKeyed | Program.cs:257-265 | each message grouped under a key comes from an input entry with that key |
| Program.PlanHasTargets | Program.cs:267-271 | every planned group's first message has the header |
| Program.Unsubscribe | Program.cs:218-299 | Main acts only when the folder is found with a non-empty id and every message to unsubscribe from has a sender |
| Program.UnsubscribeTrace | Program.cs:218-299 | a missing folder stops Main before any action, and so does a missing sender. Otherwise Main acts on all planned targets in group then target order, and never stops on a missing header |
| Program.ProcessFolder | Program.cs:192-300 | Main does exactly what Unsubscribe describes |
| Program.FetchAllMessages | Program.cs:126-190 | the paging loop with the label filter always set and Program.Retry around each Messages.Get; the journal grows by exactly the result |

## Left out

- OAuth, credential files and the construction of the Gmail service (Program.cs:194-215). These are I/O and a foreign SDK.
- Every `.Execute()` and `HttpClient.GetAsync`. Each is an outcome given as input.
- Console logging, which has no effect on the model.
- Base64 and UTF-8 encoding of the e-mail (GmailExtensions.cs:114, Program.cs:370). Only the text before encoding is modelled.
- JSON serialisation of journal records. The journal is the sequence of its records, and reading `allMessages.json` gives that sequence (empty when the file is missing).
- The real clock, `Thread.Sleep` and time zones. The clock is an integer of milliseconds given with each 429, and a sleep is an element of `sleeps`.
- Text.ToUpper: folds ASCII letters only. The OrdinalIgnoreCase comparisons (GmailExtensions.cs:31, Program.cs:245, 258, 259, 270) also fold non-ASCII letters, so "é" equals "É" in the code but not in the model. The model's `GetFolderId` and header lookups can therefore miss a match on non-ASCII names.
- The string overloads of `IndexOf` and `StartsWith` compare culture-sensitively. They are modelled as ordinal.
- GmailExtensions.MailtoSplit: a text is a sequence of Unicode scalar values here, where .NET counts UTF-16 code units. When the query lacks "subject=", the subject starts at -1 + 8 = 7 (GmailExtensions.cs:90, Program.cs:353). That start and the range check on it count different units for a query holding characters outside the BMP. For example, the query "abcd" followed by U+1F600 twice is 8 code units long: the code takes a lone surrogate as the subject, while the model reports `OutOfRange`. A query of U+1F600 followed by "xxxxxxyz" gives the subject "xyz" in the code and "yz" in the model. `MailtoSplitAll`, `MailtoWithoutSubjectKey` and `Program.SendStep` inherit this.
- Timestamps.ParseExact: takes the closing `Z` of the format as the one char 'Z'. DateTime.ParseExact also accepts 'z' or "GMT" there. For such a token the code sleeps until the instant, while the model reports `BadRetryTime` and leaves Retry.
- Sends, Gets, `visits` and `rejects` are functions of the request. Two identical requests always get the same outcome, where the code makes fresh calls each time. For example, two sender groups can share one list's mailto link. The model then sends that e-mail with the same attempts twice, so the second send cannot crash once the first succeeded; in the code it can.
- Null values the code does not test, which the model assumes present: `Payload`, a header's `Name` and `Value`, a message `Id`, a label's `Name` (GmailExtensions.cs:31) and `Id` (GmailExtensions.cs:33).
- Unbounded retrying and paging. Each runs on a finite script; a script that runs out shows as `StillRetrying`, `StillSending`, `Unfinished` or `Hang`.
- The unused `BatchRequest` objects and the commented-out batch code.
- `DeleteMail` (Program.cs:302-314), which nothing calls.
- Program.Safe (Program.cs:59-71), Program.GetFolderId (Program.cs:316-325) and Program.CreateMessageBody (Program.cs:366-371). They are the same code as their Helpers and GmailExtensions counterparts, which the model uses.
- GmailExtensions.SendUnsubscribeEmail: whether Retry returned or its exception was caught is not reported. The code discards both and writes the text to the console.
- The journal is a sequence value returned by the collector rather than a file appended in place. The model keeps its contents and order, but not what an interrupted process leaves on disk.
