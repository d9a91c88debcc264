# Gulo Gulo: verified models of the mail, lifecycle, second-factor and quota contracts

This project models the stateful contracts and codecs at the centre of Gulo Gulo in
Dafny and proves what they are for, over every input, every run or every
interleaving. `dafny verify dfyconfig.toml` checks all of it.

- **IMAP** (`ImapStream`, `ImapWire`, `FetchList`, `ImapFetch`): from chunks of octets
  to lines, commands, literals put back in line, and nested FETCH values.
- **MIME** (`Base64`, `MimeText`, `EncodedWords`, `MessageParser`, `MimeWalk`,
  `MessageComposer`, `MimeRoundTrip`): the composer, the reader, and their round trip;
  and printers for what other writers send, which the reader inverts (`QuotedPrintable`,
  `HeaderWords`, `Folding`, `Parameters`, `MimeLeaf`, `Recipients`).
- **Delivery** (`MailQueue`, `Delivery`, `DeliverCall`): concurrent `deliver` calls over
  one queue entry; the SMTP server does what it likes at every step.
- **Retention** (`CacheKeys`, `Retention`, `RetentionDrain`, `RetentionReplay`,
  `RetentionStore`, `RetentionPolicy`, `RetentionMetrics`): generations, holds, leases,
  batches and a re-entrant callback; when an item may go, and what is counted.
- **Account deletion** (`Account`, `AccountAudit`, `AccountPurge`, `AccountReplay`,
  `AccountStore`, `AccountWiring`, `AccountPolicy`): the five-state lifecycle, its
  deleting adapters, and when each call succeeds.
- **Second factor** (`Radix`, `BitGroups`, `Base32`, `Secrets`, `Attempts`, `Totp`,
  `Recovery`, `MfaGate`, `MfaSystem`, `TypedCodes`, `TotpPolicy`, `RecoveryPolicy`,
  `MfaPolicy`): codecs, lockout, managers, login gate, all of them together, and which
  answers are accepted.
- **Quota** (`MapSums`, `Quota`, `QuotaStore`, `QuotaPolicy`): the ledger, the interleaved
  database transactions that make the same decision, and when each request succeeds.

Code that changes state is a class whose methods are proved equal to a function on
values; the theorems are about that function and hold for the objects through the
methods' contracts. Strings hold one character per octet. Times are integer
milliseconds. Hashes, HMAC, random values, the rate limiter and authorization answers
are parameters, so every statement holds whatever they are.

## What the code does that its documentation does not promise

Each of these is stated on the code as it is, with a concrete instance and the exact
condition.

- `parseFetchList` never returns on `(aa {5`: a literal whose brace is not closed can
  send the position back (`FetchList.UnclosedBraceLoops`).  Every `parseValue` call of a
  text advances if and only if each brace is closed or followed by a number large enough
  to make up for it (`FetchList.CallsAdvanceExactly`), and all such texts return
  (`FetchList.AdvancingTextParses`).  A text that breaks the rule can still return
  (`FetchList.StuckBraceMayReturn`).
- `requestDeletion` and the other account calls change the account before they read a
  malformed plan, deadline, actor, reason or time, and then fail.  A call that changes an
  account tears it from the audit log if and only if one of these fields is malformed
  (`AccountAudit.TearsExactly`, `AccountAudit.RebuildsExactly`, `AccountAudit.TornRun`).
- The purge wiring notices a malformed operation id, time or actor, or a late hold, only
  after every adapter has deleted (`AccountWiring.QuietPurgeSucceedsExactly`,
  `AccountWiring.InterleavedPurgeSucceedsExactly`, `AccountWiring.MalformedIdDeletesFirst`,
  `AccountWiring.LateHoldRefusesOnlyTheRecord`).
- A purge callback that repeats its own batch's key gets a result that a later replay
  does not return.  A result cached in a callback survives its batch if and only if it has
  another key (`RetentionReplay.NestedResultSurvivesExactly`,
  `RetentionReplay.NestedReplayExactly`, `RetentionReplay.SameKeyOverwrites`).
- From the hundred-millionth on, a quota reservation can never be released
  (`Quota.ReleasableExactly`).
- A login challenge whose last factor is enrolled while issuing recovery codes throws can
  never complete (`MfaGate.StepStrandsExactly`, `MfaGate.RunStrandsExactly`,
  `MfaGate.StrandedNeverCompletes`); the first login of a user reaches this in three steps
  (`MfaGate.FirstLoginStrands`).
- An ASCII subject with outer spaces, or that reads as an encoded word, does not survive
  composing and parsing (`MimeRoundTrip.ComposedMessageParses`, `MimeRoundTrip.SubjectsThatChange`).
- A legal address can read as an encoded word and is then shown differently; recipients
  and sender of a composed message read back exactly when they hold none
  (`Recipients.AddressesRead`, `Recipients.AddressThatChanges`).
- A semicolon inside a quoted header parameter can pass for a parameter of its own; with
  none, every parameter reads back (`Parameters.SemicolonMisleads`,
  `Parameters.ParametersRoundTrip`).
- A delivery whose client factory throws leaves its entry in the state `delivering`, which
  nothing claims again (`Delivery.StepStrandsExactly`, `Delivery.RunStrandsExactly`,
  `Delivery.StuckForever`, `Delivery.FactoryStrands`).

## Model

| member | source | states |
|---|---|---|
| ImapStream.ChunkingIrrelevant | src/core/mail/imap-client.ts:300-309 | However the stream is cut into chunks, the queued lines and the unfinished rest are those of the whole stream |
| ImapStream.Reader.OnData | src/core/mail/imap-client.ts:300-309 | The framing loop appends exactly the complete lines of buffer plus chunk and keeps the rest |
| ImapStream.Reader.NextTag | src/core/mail/imap-client.ts:285-288 | The next tag is the padded sequence number, and the sequence advances by one |
| ImapStream.TagsDiffer | src/core/mail/imap-client.ts:285-288 | No two commands of a connection share a tag |
| ImapStream.Reader.TakeLiteral | src/core/mail/imap-client.ts:338-349 | The collecting loop consumes the lines the specification names and returns its literal and tail, or waits |
| ImapStream.Reader.Command | src/core/mail/imap-client.ts:351-374 | The command loop ends at its own tagged line with the untagged entries and literals of the specification, and leaves the lines after it |
| ImapStream.AbsorbLiterals | src/core/mail/imap-client.ts:147-151 | The inner loop appends one literal and one entry for each announcement, and no more |
| ImapStream.JoinLiterals | src/core/mail/imap-client.ts:142-155 | The merged lines are those of the recursive specification |
| ImapStream.SuffixOfTail | src/core/mail/imap-client.ts:147-147 | Only the text after the last literal can announce another one, whatever the literal contains |
| ImapStream.AnnouncesExactly | src/core/mail/imap-client.ts:107-107 | A line announces a literal exactly when it ends with a brace, digits and a closing brace, and announces their number |
| ImapWire.ReadLiteralExact | src/core/mail/imap-client.ts:338-349 | A literal comes back exactly, whatever CRLFs, announcements or tags it contains, with the text that completes its line |
| ImapWire.FollowResponse | src/core/mail/imap-client.ts:364-372 | Following the announcements of a response reads all its literals and consumes exactly its octets |
| ImapWire.JoinedResponses | src/core/mail/imap-client.ts:142-155 | Putting the literals back gives the exact wire text of every response |
| ImapWire.CommandReads | src/core/mail/imap-client.ts:351-374 | The command stops at its own tag, never inside a literal, with the entries and literals of every response in order |
| ImapWire.CommandEndsExactly | src/core/mail/imap-client.ts:356-362 | For every chunking a command succeeds if and only if the word after its tag is OK, is rejected if and only if it is NO, and is a protocol error otherwise |
| ImapWire.OversizeRefused | src/core/mail/imap-client.ts:338-339 | A literal announced beyond eight mebibytes is a protocol error, whatever follows |
| ImapWire.NothingEndsEarly | src/core/mail/imap-client.ts:351-374 | Until the last octet of its tagged line is there a command goes on waiting, whatever its literals contain |
| ImapWire.ResponsesSurviveTheReader | src/core/mail/imap-client.ts:142-155 | For every list of responses and every chunking, reading and joining give back the exact wire text of each |
| FetchList.CallsAdvanceExactly | src/core/mail/imap-client.ts:162-199 | All parseValue calls on a text end strictly further on if and only if each of its braces is closed later, or its number is unreadable, or that number exceeds the position less two |
| FetchList.AdvancingTextParses | src/core/mail/imap-client.ts:158-202 | On every such text parsing returns a value or a protocol error |
| FetchList.ClosedTextParses | src/core/mail/imap-client.ts:158-202 | In particular on every text in which each opening brace has a later closing one |
| FetchList.ValueAdvances | src/core/mail/imap-client.ts:162-199 | On such text every parsed value ends strictly further on, and fuel proportional to the rest of the text suffices |
| FetchList.StuckBrace | src/core/mail/imap-client.ts:186-193 | A parseValue call on any other brace returns without advancing |
| FetchList.StuckBraceMayReturn | src/core/mail/imap-client.ts:186-193 | A concrete text with such a brace on which parsing returns, so that the condition is exact for advancing and only sufficient for returning |
| FetchList.UnclosedBraceLoops | src/core/mail/imap-client.ts:186-193 | On a concrete text with an unclosed brace no amount of fuel lets the parser return |
| FetchList.NodeRoundTrip | src/core/mail/imap-client.ts:162-199 | The wire form of any nested value parses to that value wherever it stands, and the position moves behind it |
| FetchList.FetchRoundTrip | src/core/mail/imap-client.ts:119-202 | Every tree of atoms, NIL, quoted strings, literals and lists printed in the form of section 9 of RFC 3501 parses back to itself |
| ImapFetch.FetchedValuesAreExact | src/core/mail/imap-client.ts:142-374 | End to end: whatever values the server reports and however its octets arrive, exactly those values are parsed, in order |
| ImapFetch.Parser.SkipBlanks | src/core/mail/imap-client.ts:163-163 | The shared position moves to the next character that is no space |
| ImapFetch.Parser.QuotedText | src/core/mail/imap-client.ts:175-185 | The loop over a quoted string returns its unescaped text and moves behind the closing quote |
| ImapFetch.Parser.Value | src/core/mail/imap-client.ts:162-199 | Parsing with a shared position computes the recursive specification |
| ImapFetch.Parser.Items | src/core/mail/imap-client.ts:165-174 | The list loop pushes exactly the values of the specification |
| ImapFetch.CharIndexForBytes | src/core/mail/imap-client.ts:125-134 | The counting loop finds the shortest prefix of code points with the wanted number of octets, or the whole text |
| ImapFetch.CutsAtLiteral | src/core/mail/imap-client.ts:186-193 | A literal followed by anything is cut off exactly at its number of octets, whatever its characters are |
| Base64.DecodeEncode | src/core/mail/message-composer.ts:66-74 | Decoding the padded base64 form gives back every octet string (section 6.8 of RFC 2045) |
| MimeText.StripWrap | src/core/mail/message-parser.ts:101-101 | Removing white space undoes the wrapping at 76 columns |
| MimeText.WrapIsLines | src/core/mail/message-composer.ts:74-74 | The wrapped body is its pieces as lines, each ended by CRLF, none holding a line break |
| MimeText.NormalizeLines | src/core/mail/message-parser.ts:39-39 | Text whose line breaks are all CRLF is left alone by the normalisation |
| MimeText.BlankAfter | src/core/mail/message-parser.ts:40-42 | The first blank line of a message is the one after its header block |
| MimeText.UnfoldLines | src/core/mail/message-parser.ts:44-44 | A header block without continuation lines is left alone by the unfolding |
| MimeText.SplitJoin | src/core/mail/message-parser.ts:44-44 | Splitting at CRLF undoes joining lines |
| MimeText.LowerExactly | src/core/mail/message-parser.ts:48-48 | The twenty-six capitals become small letters and nothing else changes |
| MimeText.TrimExactly | src/core/mail/message-parser.ts:48-48 | A value written behind one space reads back if and only if neither end is white space |
| EncodedWords.DecodeQuotedPrintable | src/core/mail/message-parser.ts:53-67 | The byte loop computes the recursive decoding, for headers and for bodies |
| EncodedWords.DecodesToItselfExactly | src/core/mail/message-parser.ts:77-84 | A header value is unchanged if and only if it holds no encoded word and no gap between two |
| EncodedWords.DecodeEncodedWord | src/core/mail/message-parser.ts:77-84 | Every octet string written as one encoded word decodes to itself (section 4.1 of RFC 2047) |
| QuotedPrintable.BodyRoundTrip | src/core/mail/message-parser.ts:53-67 | Every quoted-printable spelling of a body, in either case, with any octet escaped and soft breaks anywhere, decodes to its octets (section 6.7 of RFC 2045) |
| QuotedPrintable.QuotedPartDecodes | src/core/mail/message-parser.ts:97-105 | A part marked as quoted-printable has those octets |
| HeaderWords.WordsRoundTrip | src/core/mail/message-parser.ts:77-84 | Any list of B and Q encoded words, in any charset and spelling, with any white space between them, decodes to its octets (sections 4 and 6.2 of RFC 2047) |
| MessageParser.SplitHeadersAndBody | src/core/mail/message-parser.ts:38-51 | The header loop keeps the first field of each name, unfolded, trimmed and in lower case, and the body after the blank line |
| MessageParser.SplitMultipart | src/core/mail/message-parser.ts:107-122 | The line loop yields the sections between delimiter lines up to the closing one |
| MessageParser.SplitInvertsJoin | src/core/mail/message-parser.ts:107-122 | Splitting gives back parts joined by a boundary line that occurs in none of them, with any preamble and epilogue (section 5.1.1 of RFC 2046) |
| Folding.LineEndingsDoNotMatter | src/core/mail/message-parser.ts:38-51 | A message is read the same whether its lines end in CR, LF or CRLF |
| Folding.FoldingDoesNotMatter | src/core/mail/message-parser.ts:44-44 | However header fields are folded, unfolding gives each on one line, every fold one space |
| Parameters.ParametersRoundTrip | src/core/mail/message-parser.ts:86-91 | From every spelling of a parameter list, tokens and quoted strings with escapes, each name reads the first value given to it |
| Parameters.SemicolonMisleads | src/core/mail/message-parser.ts:88-88 | A concrete value in which a quoted semicolon passes for a parameter |
| MimeLeaf.PartReads | src/core/mail/message-parser.ts:132-143 | Type, boundary, file name and disposition of a part are those its writer gave, and with them whether it is a container or an attachment |
| MimeLeaf.LeafIsTaken | src/core/mail/message-parser.ts:143-156 | A part is taken as exactly one thing: an attachment with its decoded, cleaned and shortened name, type and size; the text; the HTML; or nothing |
| MimeLeaf.ContainerReads | src/core/mail/message-parser.ts:107-142 | A container has exactly the parts that were joined with its boundary |
| MimeWalk.Walker.TakeIn | src/core/mail/message-parser.ts:144-156 | A leaf becomes an attachment, the first text or the first HTML, or nothing |
| MimeWalk.Walker.Visit | src/core/mail/message-parser.ts:132-157 | The stateful walk computes the recursive one, count and depth limits included |
| MimeWalk.Walker.VisitAll | src/core/mail/message-parser.ts:141-141 | The loop over the children walks them in order |
| MimeWalk.ScanFinds | src/core/mail/message-parser.ts:132-157 | A counted scan finds the first text, the first HTML and all attachments within its limit |
| MimeWalk.WalkRefinesScan | src/core/mail/message-parser.ts:125-159 | The walk yields what a plain scan of the first 50 nodes, in pre-order, of the tree cut at depth 5 yields; the cap on attachments never acts |
| MessageComposer.ParseRecipients | src/core/mail/message-composer.ts:32-48 | The loop returns the distinct addresses in order, each valid, between 1 and 50, or refuses |
| Recipients.AddressExactly | src/core/mail/message-composer.ts:11-11 | An address is a local part of 1 to 64 characters, an at sign and two or more labels, 254 characters in all |
| Recipients.CharactersExactly | src/core/mail/message-composer.ts:11-11 | Local parts and labels consist of just the listed characters |
| Recipients.ComposesExactly | src/core/mail/message-composer.ts:51-69 | A message is accepted exactly with 1 to 50 addresses, a subject without control characters and a text without NUL; just the subjects of printable ASCII are written as they are |
| Recipients.BracketedAddress | src/core/mail/message-composer.ts:38-43 | An address in angle brackets is read whatever name and white space stand around it |
| Recipients.CollectedExactly | src/core/mail/message-composer.ts:32-48 | A list is accepted exactly when every entry that is not blank is an address, and gives just those addresses |
| Recipients.OwnListReads | src/core/mail/message-composer.ts:32-48 | The recipients as the composer writes them read as the same list |
| MimeRoundTrip.ComposedSplits | src/core/mail/message-parser.ts:38-51 | A composed message comes apart into exactly its header fields and its body |
| MimeRoundTrip.BodyDecodes | src/core/mail/message-parser.ts:97-105 | The base64 body of a composed message decodes to the text with CRLF line endings |
| MimeRoundTrip.SubjectReads | src/core/mail/message-composer.ts:66-69 | The subject header reads back as the subject exactly when it is encoded, or is trimmed and holds no encoded word and no gap |
| MimeRoundTrip.ComposedMessageParses | src/core/mail/message-composer.ts:51-87 | For every validated message, parsing the composed one gives the CRLF-normalised text, no HTML, no attachments, and the subject exactly under the condition above |
| MimeRoundTrip.PlainSubjectSurvives | src/core/mail/message-composer.ts:66-69 | An ASCII subject without outer spaces and without an encoded-word mark, and every other subject, reads back |
| MimeRoundTrip.SubjectsThatChange | src/core/mail/message-parser.ts:77-84 | Two concrete subjects that do not read back |
| Recipients.AddressesRead | src/core/mail/message-composer.ts:72-79 | Sender and recipients of a composed message read back exactly when nothing in them reads as an encoded word or a gap |
| Recipients.AddressThatChanges | src/core/mail/message-parser.ts:77-84 | A concrete legal address that does not |
| MailQueue.Queue.Distinct | src/core/mail/mail-queue.ts:94-94 | The recipients without repetition, none added or lost, in order of first mention |
| MailQueue.Queue.Enqueue | src/core/mail/mail-queue.ts:80-108 | A valid message is queued with no attempts; an empty sender or recipient list is refused and changes nothing |
| MailQueue.Queue.Claim | src/core/mail/mail-queue.ts:110-124 | An entry is claimed if and only if it is queued or deferred and the caller's; then it is delivering with one more attempt |
| MailQueue.Queue.Defer | src/core/mail/mail-queue.ts:126-135 | The state and reason are stored, bounced when attempts are used up, then the backoff time unless it is no date |
| MailQueue.Queue.Complete | src/core/mail/mail-queue.ts:137-145 | Only the three terminal states are stored |
| Delivery.StepKeepsInv | src/core/mail/smtp-queue-adapter.ts:113-175 | Every step of every call keeps mutual exclusion, the attempt count and the accounting of accepted and unknown outcomes |
| Delivery.DeliveryIsExclusive | src/core/mail/smtp-queue-adapter.ts:113-175 | For every interleaving: at most one delivery in flight, the message accepted at most once, an unknown outcome quarantined, at most maxAttempts claims |
| Delivery.TerminalIsFinal | src/core/mail/mail-queue.ts:110-135 | No step changes, claims or sends a delivered, bounced or quarantined entry |
| Delivery.TerminalStays | src/core/mail/mail-queue.ts:110-135 | The same over every further run |
| Delivery.StepStrandsExactly | src/core/mail/smtp-queue-adapter.ts:113-117 | One step leaves the entry delivering with no call in flight if and only if it claims the entry and the client factory throws |
| Delivery.StuckForever | src/core/mail/mail-queue.ts:110-124 | Such an entry is never claimed, sent or changed again on any run |
| Delivery.RunStrandsExactly | src/core/mail/smtp-queue-adapter.ts:113-175 | A run of any interleaving ends with such an entry if and only if one of its moves claimed it with a throwing factory |
| Delivery.FactoryStrands | src/core/mail/smtp-queue-adapter.ts:113-117 | One call on a fresh entry reaches it |
| DeliverCall.Offer | src/core/mail/smtp-queue-adapter.ts:133-140 | The recipient loop sorts exactly the recipients the server took into accepted and its replies into rejected, in order, as a run of the machine |
| DeliverCall.RecoverEntry | src/core/mail/smtp-queue-adapter.ts:156-174 | No reply, or one from 400 to 499, defers with doubled backoff until attempts are used up; any other reply bounces |
| DeliverCall.Send | src/core/mail/smtp-queue-adapter.ts:151-163 | Reading, DATA and their outcomes lead to delivered, quarantined, bounced or deferred, as a run of the machine |
| DeliverCall.Converse | src/core/mail/smtp-queue-adapter.ts:119-174 | The conversation from the connection on is a run of the machine and touches no other entry |
| DeliverCall.Deliver | src/core/mail/smtp-queue-adapter.ts:113-175 | One whole call is a run of its own moves; the entry it leaves is fixed by what client and server did: a failure without a reply or with one from 400 to 499 defers, or bounces when attempts are used up, any other bounces, refusals of all recipients bounce only if every code is at least 500 or attempts are used up; recipients are sorted in order; a missing or foreign entry is refused |
| CacheKeys.JoinInjective | src/core/lifecycle/retention.ts:54-54 | NUL-joined keys of parts free of NUL are equal only for equal parts |
| CacheKeys.IdentifiersExactly | src/core/lifecycle/retention.ts:36-37 | The two identifier patterns by character code, length and marks |
| CacheKeys.IdNulFree | src/core/lifecycle/retention.ts:36-37 | No identifier contains NUL or equals the wildcard |
| Retention.PurgedAtMostOnce | src/core/lifecycle/retention.ts:78-79 | In a lawful history no generation is purged twice |
| Retention.ApplyKeepsInv | src/core/lifecycle/retention.ts:70-80 | Every call, with whatever its callbacks do, keeps records, holds, history, audit log, metric and cached results in agreement |
| Retention.LoopKeepsInv | src/core/lifecycle/retention.ts:78-79 | The batch loop keeps it through every callback, and reports every candidate once, as purged or skipped |
| Retention.DueAllowed | src/core/lifecycle/retention.ts:79-79 | What the second check lets through may be purged: trashed, past its retention, no hold in force |
| Retention.EveryRunIsLawful | src/core/lifecycle/retention.ts:70-80 | On every run each purge hits a record still trashed, due at the batch's start, with no hold in force; the log reports exactly the purges and the metric counts them |
| RetentionPolicy.PurgesKeepThePolicy | src/core/lifecycle/retention.ts:71-79 | On every run, callbacks included, each purge goes back to a deletion call of the run at least the configured number of days earlier, with no restoration since and no hold in force |
| RetentionPolicy.EveryFactIsAsked | src/core/lifecycle/retention.ts:71-80 | Every deletion, restoration, hold, release and purge of a run was asked for by one of its calls, at any depth, with just its scope, times and expiry |
| RetentionPolicy.MarkSelectsExactly | src/core/lifecycle/retention.ts:70-71 | A deletion succeeds exactly for an enabled type and a valid end, and selects the item exactly from the configured days on, unless a hold is in force |
| RetentionPolicy.RestoreUnselects | src/core/lifecycle/retention.ts:72-72 | A restoration succeeds exactly for a known item that is not purged, which is then never selected |
| RetentionPolicy.HoldProtectsExactly | src/core/lifecycle/retention.ts:73-73 | A new hold succeeds exactly when it ends in the future, and keeps the item from selection until it ends |
| RetentionPolicy.ReleaseUnprotectsExactly | src/core/lifecycle/retention.ts:74-74 | A released hold counts no more, and the others do |
| RetentionPolicy.LeaseExcludesExactly | src/core/lifecycle/retention.ts:75-75 | A lease is granted unless another owner holds one, and excludes the item while it lasts |
| RetentionPolicy.DroppedLeaseExactly | src/core/lifecycle/retention.ts:76-76 | Only the lease of this owner and id is dropped, and then excludes no more |
| RetentionPolicy.ItemInHandExactly | src/core/lifecycle/retention.ts:78-78 | While a batch has an item in hand no other selects it, for thirty seconds |
| RetentionMetrics.MetricsAreExact | src/core/lifecycle/retention.ts:71-80 | On every run each metric is the number of times its thing happened, and all candidates are purged or skipped |
| Retention.EveryBatchAddsUp | src/core/lifecycle/retention.ts:80-80 | In every batch result scanned is purged plus skipped, failures are at most skipped, and its audit entries report exactly the listed purges, in order, and one entry for each failure |
| RetentionDrain.CandidatesAre | src/core/lifecycle/retention.ts:70-70 | A batch takes distinct due items, as many as the limit allows, and none due later than one left out |
| RetentionDrain.BatchDrains | src/core/lifecycle/retention.ts:77-80 | With an accepting adapter one batch purges exactly its candidates, in order, skips nothing, and lowers the number of due items by exactly min(limit, due) |
| RetentionDrain.DrainsInBatches | src/core/lifecycle/retention.ts:77-80 | k batches leave n - k * limit due items, or none |
| RetentionReplay.KeysNeverCollide | src/core/lifecycle/retention.ts:71-77 | Equal cache keys belong to the same operation, scope and id |
| RetentionReplay.ReplayReturnsFirst | src/core/lifecycle/retention.ts:71-77 | In every later state a request with a cached key returns the first result and changes nothing |
| RetentionReplay.LoopAges | src/core/lifecycle/retention.ts:78-80 | Whatever the callbacks do, a batch result cached in them carries metrics of fewer settled candidates than the enclosing batch will report |
| RetentionReplay.NestedResultSurvivesExactly | src/core/lifecycle/retention.ts:77-80 | A result cached inside a callback survives the enclosing batch if and only if it does not have that batch's own key, which it has only if a nested call repeats it |
| RetentionReplay.NestedReplayExactly | src/core/lifecycle/retention.ts:71-80 | After the batch and any further calls, a replay of a nested request returns the nested result under that condition and no other |
| RetentionReplay.SameKeyOverwrites | src/core/lifecycle/retention.ts:77-80 | A nested batch with the same key reports nothing, the outer one purges and overwrites, and a replay returns the outer result |
| RetentionReplay.OneDeletionOneDue | src/core/lifecycle/retention.ts:71-71 | One deletion from the empty store makes the situation above possible |
| RetentionStore.TrashStore.ListCandidates | src/core/lifecycle/retention.ts:70-70 | The listing is the filtered, stably sorted and cut one |
| RetentionStore.TrashStore.MarkDeleted | src/core/lifecycle/retention.ts:71-71 | A new generation is stored before the audit entry, which may fail; the result is cached |
| RetentionStore.TrashStore.RestoreItem | src/core/lifecycle/retention.ts:72-72 | An item that is not purged becomes restored, without deadline or lease |
| RetentionStore.TrashStore.PlaceHold | src/core/lifecycle/retention.ts:73-73 | A hold is added once and must expire in the future |
| RetentionStore.TrashStore.LiftHold | src/core/lifecycle/retention.ts:74-74 | A hold is removed, or nothing happens when there is none |
| RetentionStore.TrashStore.TakeLock | src/core/lifecycle/retention.ts:75-75 | A lease in force belongs to its owner; otherwise it is taken |
| RetentionStore.TrashStore.DropLock | src/core/lifecycle/retention.ts:76-76 | Only the owner's own lease is dropped |
| RetentionStore.TrashStore.SettleItem | src/core/lifecycle/retention.ts:78-79 | After the callback the record in hand is failed, skipped or purged, its lease is gone, and the batch's lists and the log tell which |
| RetentionStore.TrashStore.PurgeEach | src/core/lifecycle/retention.ts:78-79 | The loop with its re-entrant callbacks computes the recursive specification |
| RetentionStore.TrashStore.RunPurgeBatch | src/core/lifecycle/retention.ts:77-80 | A batch replays its cached result, or lists, purges, and caches the purged and skipped items, failures, audit entries, remaining number and metrics |
| RetentionStore.TrashStore.Perform | src/core/lifecycle/retention.ts:71-81 | Any call, nested ones included, does what the specification says |
| AccountAudit.EntryTellsChange | src/core/lifecycle/account-lifecycle.ts:122-147 | The audit entry of a call tells exactly the change it made |
| AccountAudit.ChangeShows | src/core/lifecycle/account-lifecycle.ts:122-147 | Every change alters what the log is to rebuild |
| AccountAudit.TearsExactly | src/core/lifecycle/account-lifecycle.ts:122-147 | A call that changes its account fails afterwards if and only if its deadline, plan, actor, reason or audit time is malformed |
| AccountAudit.RebuildsUnlessTorn | src/core/lifecycle/account-lifecycle.ts:122-147 | The log still rebuilds every account after a call if and only if the call did not fail after changing its account |
| AccountAudit.RebuildsExactly | src/core/lifecycle/account-lifecycle.ts:122-147 | That is, if and only if those fields are well formed or no account changed |
| AccountAudit.RunKeepsPlans | src/core/lifecycle/account-lifecycle.ts:97-103 | On every run all stored plans are normal, which the two exact statements assume |
| AccountAudit.LogRebuildsAccounts | src/core/lifecycle/account-lifecycle.ts:122-147 | On every run of well-formed calls the log alone rebuilds state, deadline, plan, holds and request id |
| AccountAudit.EmptyPlanTears | src/core/lifecycle/account-lifecycle.ts:129-129 | A request with an empty plan is refused and leaves the account awaiting deletion without a new request id or audit entry |
| AccountAudit.TornRun | src/core/lifecycle/account-lifecycle.ts:122-131 | A concrete run of two calls whose log no longer rebuilds the account |
| AccountAudit.PlanStays | src/core/lifecycle/account-lifecycle.ts:97-103 | A normalised plan normalises again |
| AccountPurge.ApplyKeepsInv | src/core/lifecycle/account-lifecycle.ts:122-147 | Every call keeps each record in step with the history that led to it |
| AccountPurge.PurgesAreEarned | src/core/lifecycle/account-lifecycle.ts:127-147 | A purged account was requested, soft deleted, queued at or after the request plus its days, and completed, in that order since it was last active, without holds, with every planned resource reported purged |
| AccountPolicy.PurgesAreAsked | src/core/lifecycle/account-lifecycle.ts:128-147 | Every purge goes back to four calls of the run: a confirmed request, a confirmed soft deletion, a queueing at least its days later, and a confirmed completion reporting what it planned |
| AccountPolicy.WindowIsExact | src/core/lifecycle/account-lifecycle.ts:128-139 | After an accepted request, whatever is called short of restoring or completing, the account can be restored exactly up to the days of the request |
| AccountPolicy.RequestSucceedsExactly | src/core/lifecycle/account-lifecycle.ts:128-131 | A request succeeds exactly for an active account without holds, confirmed, with 1 to 3650 days, a valid end and a usable plan |
| AccountPolicy.SoftDeleteSucceedsExactly | src/core/lifecycle/account-lifecycle.ts:132-135 | A soft deletion succeeds exactly when requested, confirmed and matching the request id |
| AccountPolicy.RestoreSucceedsExactly | src/core/lifecycle/account-lifecycle.ts:136-139 | A restoration succeeds exactly from the three waiting states, up to the last instant of the window |
| AccountPolicy.QueueSucceedsExactly | src/core/lifecycle/account-lifecycle.ts:142-144 | Queueing succeeds exactly from the last instant of the window on, without holds |
| AccountPolicy.CompleteSucceedsExactly | src/core/lifecycle/account-lifecycle.ts:145-147 | A completion succeeds exactly when queued, confirmed, without holds, and every planned resource is reported |
| AccountPolicy.HoldsSucceedExactly | src/core/lifecycle/account-lifecycle.ts:140-141 | Holds are added and removed in every state, each once |
| AccountPolicy.RegisterSucceedsExactly | src/core/lifecycle/account-lifecycle.ts:122-127 | A new account is active, with every known resource planned unless the call plans otherwise |
| AccountPolicy.PlanExactly | src/core/lifecycle/account-lifecycle.ts:97-103 | A plan is usable exactly when it is not empty and names known resources only |
| AccountPurge.PurgedIsFinal | src/core/lifecycle/account-lifecycle.ts:136-147 | No run leads a purged account anywhere else |
| AccountPurge.QueuedLateNeverActive | src/core/lifecycle/account-lifecycle.ts:136-144 | With times that do not go back an account queued strictly after its deadline is never active again |
| AccountPurge.QueuedOnTimeCanReturn | src/core/lifecycle/account-lifecycle.ts:136-144 | Queued exactly at its deadline it can still be restored at that instant |
| AccountReplay.KeysNeverCollide | src/core/lifecycle/account-lifecycle.ts:128-146 | Equal cache keys belong to the same operation, account and id |
| AccountReplay.ReplayReturnsFirst | src/core/lifecycle/account-lifecycle.ts:128-146 | In every later state a request with a cached key returns the first result and changes nothing |
| AccountReplay.RunKeepsCompletions | src/core/lifecycle/account-lifecycle.ts:146-146 | Only purged accounts have a cached completion |
| AccountStore.LifecycleStore.RegisterAccount | src/core/lifecycle/account-lifecycle.ts:122-126 | A new account is stored, then audited; the audit entry may fail |
| AccountStore.LifecycleStore.AssignRequest | src/core/lifecycle/account-lifecycle.ts:129-130 | The assignments of a request, in order, with the two places where they stop |
| AccountStore.LifecycleStore.RequestDeletion | src/core/lifecycle/account-lifecycle.ts:127-131 | Replay, confirmation, checks, assignments, entry and cached result |
| AccountStore.LifecycleStore.SoftDeleteAccount | src/core/lifecycle/account-lifecycle.ts:132-135 | A confirmed pending request becomes a soft deletion |
| AccountStore.LifecycleStore.RestoreAccount | src/core/lifecycle/account-lifecycle.ts:136-139 | Within its window an account becomes active again and forgets the request |
| AccountStore.LifecycleStore.AddAccountHold | src/core/lifecycle/account-lifecycle.ts:140-140 | A hold is added once |
| AccountStore.LifecycleStore.ReleaseAccountHold | src/core/lifecycle/account-lifecycle.ts:141-141 | A hold is removed before the entry is written |
| AccountStore.LifecycleStore.QueuePurge | src/core/lifecycle/account-lifecycle.ts:142-144 | Only a soft-deleted account past its deadline and without holds is queued |
| AccountStore.LifecycleStore.ResourcesPurged | src/core/lifecycle/account-lifecycle.ts:104-108 | The loop accepts if and only if every planned resource is reported purged |
| AccountStore.LifecycleStore.CompletePurge | src/core/lifecycle/account-lifecycle.ts:145-147 | Only a queued account, confirmed, without holds and with all resources purged, becomes purged |
| AccountStore.LifecycleStore.Call | src/core/lifecycle/account-lifecycle.ts:122-147 | Every call does what the specification says |
| AccountWiring.CompleteWithAdapters | src/core/lifecycle/account-lifecycle-wiring.ts:115-147 | The loop over the plan, with the calls of others at every await, computes the recursive specification |
| AccountWiring.AdaptersAreGuarded | src/core/lifecycle/account-lifecycle-wiring.ts:119-137 | An adapter is called only if state, confirmation and holds permitted it, and adapters are called along the plan |
| AccountWiring.QuietPurgeSucceedsExactly | src/core/lifecycle/account-lifecycle-wiring.ts:115-147 | Without interleaved calls and with succeeding adapters the purge is recorded if and only if operation id, completion time and actor are well formed |
| AccountWiring.ReachableCompletions | src/core/lifecycle/account-lifecycle.ts:145-147 | Every reachable store meets the premise of the statement above |
| AccountWiring.MalformedIdDeletesFirst | src/core/lifecycle/account-lifecycle-wiring.ts:128-145 | A malformed operation id is refused after every adapter has deleted |
| AccountWiring.InterleavedPurgeSucceedsExactly | src/core/lifecycle/account-lifecycle-wiring.ts:115-147 | Whatever others call meanwhile, a permitted purge is recorded if and only if every adapter and the trash batch succeed, the operation id is well formed and, after those calls, either the completion is cached, or the account is still queued, without holds, with nothing planned beyond what was deleted, and time and actor are well formed |
| AccountWiring.LateHoldRefusesOnlyTheRecord | src/core/lifecycle/account-lifecycle-wiring.ts:128-145 | A hold placed at the first await refuses the record after every adapter has deleted |
| AccountWiring.PermittedIsReachable | src/core/lifecycle/account-lifecycle-wiring.ts:119-126 | Four calls on the empty store reach an account on which the purge is permitted, with a plan to delete |
| BitGroups.RegroupRoundTrip | src/core/auth/totp.ts:77-121 | Regrouping octets into digits of any width and back gives the octets |
| Base32.ShiftIn8Low | src/core/auth/totp.ts:85-85 | Truncating to 32 bits never reaches the pending bits |
| Base32.Pack | src/core/auth/totp.ts:81-95 | The truncating loop writes the unbounded encoding of section 6 of RFC 4648 |
| Base32.Unpack | src/core/auth/totp.ts:106-116 | The truncating loop reads the whole octets of the unbounded number |
| Secrets.EncodeBase32 | src/core/auth/totp.ts:77-96 | Empty input is refused; anything else becomes its base32 text |
| Secrets.DecodeBase32 | src/core/auth/totp.ts:98-121 | Text of the wrong length or alphabet is refused; anything else becomes its octets |
| Secrets.SecretRoundTrip | src/core/auth/totp.ts:77-121 | Every key of 10 to 64 octets survives encoding and decoding |
| Secrets.NormalizeKeepsKey | src/core/auth/totp.ts:123-126 | Normalising keeps the decoded key and is idempotent |
| Secrets.GenerateRecoveryCode | src/core/auth/recovery-codes.ts:102-118 | Ten octets become sixteen characters in four groups |
| Secrets.GeneratedCodeNormalizes | src/core/auth/recovery-codes.ts:66-70 | A generated code is recognised as printed |
| Secrets.RecoveryCodesInjective | src/core/auth/recovery-codes.ts:102-118 | Different octets give different codes as printed, dashes included |
| TypedCodes.TypedSecretReads | src/core/auth/totp.ts:98-126 | A secret is read back in either case and however it is grouped, within 128 characters |
| TypedCodes.TypedCodeReads | src/core/auth/recovery-codes.ts:66-70 | So is a recovery code |
| TypedCodes.NormalizesExactly | src/core/auth/recovery-codes.ts:66-70 | Anything but sixteen characters of the alphabet, once cleaned, is no recovery code |
| TypedCodes.DecodesExactly | src/core/auth/totp.ts:98-121 | A text is a secret exactly when it has 16 to 128 characters and spells 10 to 64 octets once cleaned |
| Attempts.WithinBudget | src/core/auth/totp.ts:274-312 | What can still fail before an instant is bounded by the limiter's state |
| Attempts.GuessingIsBounded | src/core/auth/totp.ts:274-341 | With a clock that does not go back, no half-open interval of the lockout length without a success holds more than maxFailures failed comparisons |
| Attempts.ChainIsPossible | src/core/auth/totp.ts:274-341 | The events of one factor, threaded through its counter until it is revoked, are a possible history of the limiter |
| Totp.Manager.EmitFailure | src/core/auth/totp.ts:274-289 | A failure counts and locks at the limit |
| Totp.Manager.AllowAttempt | src/core/auth/totp.ts:291-312 | An expired lock is cleared before the rate limiter is asked |
| Totp.Manager.Evaluate | src/core/auth/totp.ts:314-352 | Checks, window search, replay check and success follow the specification |
| Totp.Manager.FindCounter | src/core/auth/totp.ts:325-335 | The loop returns the first counter of the window whose code matches |
| Totp.Manager.ConfirmEnrollment | src/core/auth/totp.ts:404-419 | A pending factor with a good code becomes active |
| Totp.Manager.VerifyCode | src/core/auth/totp.ts:421-427 | An active factor is evaluated within its scope |
| Totp.Manager.EnrollFactor | src/core/auth/totp.ts:360-402 | A new factor is pending and unused |
| Totp.Manager.RevokeFactor | src/core/auth/totp.ts:429-455 | An authorized revocation makes the factor revoked |
| Totp.EvaluatedFollowsLimiter | src/core/auth/totp.ts:314-341 | Every evaluation acts on the attempt counter as the limiter's step |
| Totp.TotpGuessingIsBounded | src/core/auth/totp.ts:274-341 | The bound holds for each factor under every mix of calls on all factors, verify and confirm together |
| Totp.CountersStrictlyIncrease | src/core/auth/totp.ts:325-341 | Accepted counters of a factor strictly increase (section 5.2 of RFC 6238) |
| TotpPolicy.VerifySucceedsExactly | src/core/auth/totp.ts:314-341 | A code is accepted exactly when the factor is active, in scope and not locked, and the earliest time step of the window with this code is later than the last one used |
| TotpPolicy.ConfirmSucceedsExactly | src/core/auth/totp.ts:404-419 | Confirmation accepts under the same condition while the factor is pending, and makes it active |
| TotpPolicy.CurrentCodeIsAccepted | src/core/auth/totp.ts:324-341 | In particular the unused code of the current step |
| TotpPolicy.LocksExactly | src/core/auth/totp.ts:274-289 | A failure locks exactly when it is the last one allowed, for exactly the lockout time |
| Recovery.Manager.Failure | src/core/auth/recovery-codes.ts:149-156 | A failure counts and locks at the limit |
| Recovery.Manager.Allowed | src/core/auth/recovery-codes.ts:158-169 | An expired lock is cleared before the rate limiter is asked |
| Recovery.Manager.FindUnused | src/core/auth/recovery-codes.ts:211-211 | The first unused entry that the code opens |
| Recovery.Manager.ConsumeCode | src/core/auth/recovery-codes.ts:199-218 | A good code marks exactly its entry used and clears the counter |
| Recovery.Manager.EnrollCodes | src/core/auth/recovery-codes.ts:183-194 | The issuing loop stores a salted digest of each code, all unused |
| Recovery.Manager.RevokeFactor | src/core/auth/recovery-codes.ts:220-241 | An authorized revocation ends the factor and clears its counter |
| Recovery.RecoveryGuessingIsBounded | src/core/auth/recovery-codes.ts:149-169 | The bound on failed comparisons holds for recovery codes |
| Recovery.UsedEntriesCountRecoveries | src/core/auth/recovery-codes.ts:199-218 | Every acceptance uses up exactly one unused entry, over every run |
| RecoveryPolicy.ConsumeSucceedsExactly | src/core/auth/recovery-codes.ts:199-218 | A code is accepted exactly when it opens an unused entry in scope and unlocked; the first such entry, and no other, is used up |
| RecoveryPolicy.IssuedCodeWorksUntilUsed | src/core/auth/recovery-codes.ts:170-218 | Every issued code, typed as printed, is accepted as long as its entry is unused, whatever was called in between |
| MfaGate.StepKeepsInv | src/runtime/mfa.ts:172-375 | Every step keeps satisfied within enrolled within needs, failures and pending below their limits, and each pending challenge in step with the log |
| MfaGate.EveryRunIsLawful | src/runtime/mfa.ts:218-375 | For arbitrary managers every run keeps the invariant and writes a lawful log |
| MfaGate.EveryLifeIsLawful | src/runtime/mfa.ts:172-375 | In particular every run from the empty gate: a lawful log, pending challenges within the limit, and satisfied within enrolled within needs |
| MfaGate.CompletionsAreEarned | src/runtime/mfa.ts:234-375 | A completion happens at most once, before expiry, with the login given to begin, after every factor active at begin was verified or covered by its own recovery code, and new factors only after those |
| MfaPolicy.BeginDecidesExactly | src/runtime/mfa.ts:247-281 | From modes, managers and reads: a login passes exactly when both factors are waived, is unavailable exactly when one is broken or no room is left, and otherwise asks for exactly the active and the required ones |
| MfaPolicy.EveryLoginIsEarned | src/runtime/mfa.ts:234-375 | On every run from a new gate a completed login began in it, in time, with an accepted answer for every factor the user had and every required one |
| MfaPolicy.CompletesExactly | src/runtime/mfa.ts:234-375 | A step hands a login over exactly when its answer is the last one an unexpired challenge waits for |
| MfaPolicy.RejectedAnswersFail | src/runtime/mfa.ts:296-375 | Every awaited answer that is not accepted fails, and nothing else does |
| MfaPolicy.OffersExactly | src/runtime/mfa.ts:283-352 | A ceremony is offered, and an enrollment started, exactly while its factor is needed and open, a new one only after every factor the user had |
| MfaPolicy.FailureCounts | src/runtime/mfa.ts:228-232 | A failed step counts once, and the last one allowed drops the challenge |
| MfaPolicy.WrongAnswersAreBounded | src/runtime/mfa.ts:228-375 | On every run no challenge takes more wrong answers than configured |
| MfaGate.EnrollmentStrandsExactly | src/runtime/mfa.ts:312-317 | Enrolling the last open factor leaves a challenge with nothing left to satisfy if and only if issuing recovery codes throws and failures are left |
| MfaGate.StepStrandsExactly | src/runtime/mfa.ts:296-375 | A step leaves its challenge with nothing left to satisfy if and only if it enrols the last open factor, issuing recovery codes throws and failures are left |
| MfaGate.RunStrandsExactly | src/runtime/mfa.ts:247-375 | On every run with fresh tokens a challenge ends up so if and only if one of its steps did that and it was not dropped since; and it has not completed in either case |
| MfaGate.StrandedNeverCompletes | src/runtime/mfa.ts:296-375 | Such a challenge, and one that was dropped, does not complete on any further run whose begins use other tokens |
| MfaGate.FirstLoginStrands | src/runtime/mfa.ts:247-318 | Begin, enrol and verify from the empty gate reach such a challenge, which then never completes |
| MfaGate.GateObject.PurgeExpired | src/runtime/mfa.ts:172-175 | The loop removes exactly the expired challenges |
| MfaGate.GateObject.Lookup | src/runtime/mfa.ts:177-186 | An unexpired challenge is found; an expired one is removed |
| MfaGate.GateObject.Failure | src/runtime/mfa.ts:228-232 | A failure counts and drops the challenge at the limit |
| MfaGate.GateObject.Settle | src/runtime/mfa.ts:234-245 | With nothing outstanding the challenge is removed and its login returned |
| MfaGate.GateObject.CollectNeeds | src/runtime/mfa.ts:251-271 | The loop over the factor types yields needs, required and enrolled of the specification, or fails as it does |
| MfaGate.GateObject.BeginLogin | src/runtime/mfa.ts:247-281 | A login without needs passes; otherwise a fresh challenge is stored within the limit |
| MfaGate.GateObject.StartTotpEnrollment | src/runtime/mfa.ts:283-294 | Enrollment starts only when every enrolled factor is satisfied |
| MfaGate.GateObject.SettleFactor | src/runtime/mfa.ts:300-317 | A good answer satisfies or enrols the factor and settles; a bad one counts as a failure |
| MfaGate.GateObject.VerifyTotpCode | src/runtime/mfa.ts:296-318 | The code verifies the active factor or confirms the enrolled one |
| MfaGate.GateObject.VerifyRecoveryCode | src/runtime/mfa.ts:320-337 | A recovery code stands in for the first enrolled factor that is still open |
| MfaGate.GateObject.CompleteWebauthn | src/runtime/mfa.ts:354-375 | An assertion satisfies, a registration enrols |
| MfaSystem.TotpStepLogs | src/runtime/mfa.ts:296-318 | A step satisfies a factor by TOTP exactly when the manager accepted its code |
| MfaSystem.RecoveryStepLogs | src/runtime/mfa.ts:320-337 | A step satisfies a factor by recovery exactly when the manager used up an entry |
| MfaSystem.SysStepKeepsInv | src/runtime/mfa.ts:296-375 | Every step of gate and managers together keeps the two accounts equal |
| MfaSystem.EachCredentialCountsOnce | src/runtime/mfa.ts:300-333 | Over the whole life of the system each time step satisfies at most one challenge, and factors satisfied by recovery number the used entries |
| MapSums.SumRemove | src/core/admin/quota.ts:59-67 | The total does not depend on the order of summation |
| Quota.QuotaLedger.TotalAllocated | src/core/admin/quota.ts:59-67 | The loop returns the exact sum without the excluded user, or refuses exactly when it is no safe integer |
| Quota.QuotaLedger.Set | src/core/admin/quota.ts:91-98 | The allocation is stored only after every check, as the decision says |
| Quota.QuotaLedger.RegisterUser | src/core/admin/quota.ts:112-119 | A known user is refused; a new one gets an allocation |
| Quota.QuotaLedger.AllocateQuota | src/core/admin/quota.ts:121-132 | No allocation below current usage |
| Quota.QuotaLedger.ReserveBytes | src/core/admin/quota.ts:163-178 | A reservation within the allocation raises usage and gets the next id |
| Quota.QuotaLedger.ReleaseReservation | src/core/admin/quota.ts:180-192 | A release lowers usage once |
| Quota.CreateLedger | src/core/admin/quota.ts:51-110 | The loop over the initial users stores all of them or there is no ledger |
| Quota.ApplyKeepsInv | src/core/admin/quota.ts:91-192 | Every call keeps sums, usage, reservations and ids in agreement |
| Quota.LedgerIsSound | src/core/admin/quota.ts:51-192 | In every reachable state allocations sum to at most gross, usage fits the allocation, and usage is initial usage plus unreleased reservations |
| QuotaPolicy.CreatedExactly | src/core/admin/quota.ts:51-110 | A ledger is created exactly when the gross quota is positive and safe and the initial users are distinct, each within its allocation, and fit together |
| QuotaPolicy.AllocationsSucceedExactly | src/core/admin/quota.ts:91-132 | An allocation is stored exactly when the user is new or known as the call says, usage is covered and the sum fits |
| QuotaPolicy.ReservesExactly | src/core/admin/quota.ts:163-178 | Bytes are reserved exactly when they fit what is left, under an id never used before |
| QuotaPolicy.ReleaseFreesExactly | src/core/admin/quota.ts:180-192 | The first release frees exactly its bytes, which can then be reserved again |
| Quota.ReserveNeverOverflows | src/core/admin/quota.ts:172-173 | The overflow branch of reserve is unreachable |
| Quota.ClampNeverActs | src/core/admin/quota.ts:188-189 | The clamp in release never acts |
| Quota.SecondReleaseChangesNothing | src/core/admin/quota.ts:187-187 | However much happens in between, a second release changes nothing |
| Quota.IdsDiffer | src/core/admin/quota.ts:175-175 | Different sequence numbers have different ids |
| Quota.ReleasableExactly | src/core/admin/quota.ts:175-185 | A reservation can be released if and only if its number is below a hundred million |
| Quota.ReservationsUnbounded | src/core/admin/quota.ts:163-178 | Any number of reservations can be handed out, so that limit is reached |
| QuotaStore.TxnOkStable | src/integrations/postgres-store.ts:199-216 | Nothing that happens to other tenants or locks disturbs what a transaction relies on |
| QuotaStore.CreateAgrees | src/integrations/postgres-store.ts:264-267 | The test on the sum read under the lock is the ledger's decision for a new user |
| QuotaStore.AllocateAgrees | src/integrations/postgres-store.ts:285-288 | The same for an allocation |
| QuotaStore.StepKeepsInv | src/integrations/postgres-store.ts:199-291 | Every statement, COMMIT, ROLLBACK or failure of any transaction keeps the committed rows serial |
| QuotaStore.CommitsAreSequential | src/integrations/postgres-store.ts:233-291 | For every interleaving the committed rows are what the sequential ledger gives for the commits in order, each accepted; allocations never sum above gross |
| QuotaStore.QuotaRefusalsAreJustified | src/integrations/postgres-store.ts:264-288 | A request is refused for quota only if the ledger refuses it on the rows committed at that moment |
| QuotaPolicy.CommitsExactly | src/integrations/postgres-store.ts:199-291 | Undisturbed, from any reachable state with the row unlocked, a request commits exactly when it fits, with just its own rows changed, and leaves the row free |
| QuotaPolicy.OnlyLocksStall | src/integrations/postgres-store.ts:199-216 | A transaction that is not over waits for nothing but the lock of its own tenant |
| QuotaStore.TenantIsImmutable | src/integrations/postgres-store.ts:233-243 | Domain and gross quota of a tenant never change |

## Left out

- Text encodings: strings hold one character per octet, the charset decoders are the identity, and incoming octets are taken to be valid UTF-8; Unicode white space, a leading byte order mark and lone surrogates are not modelled.
- Sockets, TLS, timers, the IDLE refresh and the unsolicited-line handler of the IMAP client; `readLine` waits in the model when no line is there.
- `parseSummary`, `formatAddresses` and `isoDate`: field access over the parsed values.
- Delivery.StepStrandsExactly: the clock, `client.close()` and the logger are taken not to throw; in the code such an exception after the claim leaves the entry `delivering` as well, since the state is set before the clock is read.
- `smtp-client.ts`: its outcomes are free choices of the environment, and the client is taken to report them faithfully.
- FetchList.AdvancingTextParses: parsing is modelled with fuel, and the statement is that the fuel never runs out; the number read from an unclosed brace is a parameter.
- MimeRoundTrip.ComposedMessageParses: the date is parsed but not compared; the limits on the length of subject and text are not used.
- The order of items due at the same instant: `localeCompare` on their keys is an arbitrary parameter, and end-of-retention times are compared as numbers, which is how their ISO forms compare in years 0 to 9999.
- Field validation other than the identifiers in cache keys: malformed requests are refused before anything happens; where the code reads a field only after it has changed state, the model does too.
- Schema versions, hold ids, actors and the times of leases in what the retention calls return.
- Resource types, labels, reasons, hold reasons and creation times that no decision depends on.
- `authorize` and the tenant checks of the quota ledger, and the read that follows a change: callers are taken to be authorized.
- The alias, audit-reference and snapshot queries of the PostgreSQL store, unique columns other than the keys, and the waiting times of its retry loop: any number of transactions, failing anywhere, covers every retry.
- `webauthn.ts`: the gate is proved for arbitrary answers of that manager.
- MfaGate.EveryRunIsLawful: tokens are taken to be fresh random values, and `maxFailures` is at least one.
- Cryptography: HMAC, SHA-256, AES-GCM and random bytes are uninterpreted or arguments.
- HTTP routing, the web client, configuration, backup storage, LDAP, delegation, role tables and metrics export: glue or single-branch checks that would only add easy members.
