# A Dafny model of the text-stream machines of RustyHand

RustyHand's gateway cuts, buffers, rewrites and re-frames text in many small stateful machines. This
project models them in Dafny and proves what each keeps over whole runs: nothing is lost, reordered
or duplicated, limits hold over every window, and what is written is what is read back. A Dafny
`char` is a Unicode scalar value, so `string` is Rust's sequence of `char`s; where the code works on
bytes, the bytes are modelled too (section 3 of RFC 3629).

| file | models |
|---|---|
| `Text.dfy`, `Utf8.dfy` | pattern search, trimming, line splitting; UTF-8, byte offsets and their relation to character offsets |
| `ChunkerSpec.dfy`, `StreamChunker.dfy` | the Markdown stream chunker over characters, and the class over a UTF-8 buffer that refines it |
| `ChunkerCuts.dfy`, `ChunkerBlocks.dfy`, `ChunkerLaws.dfy` | text pushed in pieces, which flushed chunks end inside a fenced block, and what pushing and flushing do in terms of the text alone |
| `StreamForwarder.dfy`, `ForwarderLaws.dfy` | the WebSocket delta forwarder with its two buffers and one deadline, and what it sends and when, by the events alone |
| `RateLimiter.dfy` | the sliding-window limiters of the channel bridge and of the WebSocket |
| `Formatter.dfy`, `TelegramTags.dfy`, `TelegramDocuments.dfy`, `SlackBolds.dfy` | the Markdown rewriting loops, what the Telegram tags say, what becomes of a whole document, and where the Slack asterisks end up |
| `SseReader.dfy` | the stream reader of the Python and JavaScript SDKs |
| `ConfigSecrets.dfy`, `ConfigPaths.dfy`, `SecretsFile.dfy` | restoring redacted secrets in a TOML tree; the `secrets.env` file as a map |
| `ToolCalls.dfy`, `StreamDedup.dfy`, `DiscordGateway.dfy` | OpenAI tool-call flattening, the duplicate window, the Discord gateway loop |

Each state-changing operation is a method or a class method proved equal to a function of the old
state; the theorems are about those functions and about whole runs of them.

Where the code does less than its comments say, the exact condition is proved, with an input on the
failing side beside it:

- The chunker's comment "never splits inside fenced code blocks" does not hold. Below max an open fence
  holds everything back (`ChunkerSpec.FlushInsideFence`), but a flush outside a fence leaves the chunks
  ending inside a block if and only if the fence is open at the cut point, which the buffer and the
  limits name beforehand; and a forced close does so if and only if the pushes so far that joined two
  pieces of a line into one with another fence parity are odd in number
  (`ChunkerBlocks.FlushCutsBlockIff`). Pushed in whole lines, a forced close always ends outside a block
  (`ChunkerBlocks.WholeLinesCloseBlocks`). No choice of limits helps: some text with all blocks closed,
  pushed in one call, is cut inside one exactly when max >= 1 (`ChunkerBlocks.CutsClosedBlockIff`),
  and one pushed in pieces is for all limits, 0 included (`ChunkerBlocks.PiecesCutClosedBlock`).
- Text pushed in two parts cut anywhere gives the state of the whole if and only if the line the cut
  falls in is a fence line exactly when just one of its two pieces is; for many parts the cuts where it does not
  must be even in number (`ChunkerCuts.PushAppendIff`, `ChunkerCuts.PushInPartsIff`). A fence
  arriving as two backticks and then one is missed (`ChunkerSpec.PushSplitFenceMissed`).
- Draining the chunker with `try_flush` ends from every state exactly when max >= 1 and one of the
  two limits is at least 5 (`ChunkerSpec.DrainsIff`): the reopened fence is four characters long.
  With any other limits one push from the start already leads to a state that never drains
  (`ChunkerSpec.StuckAfterPush`).
- A thinking delta that arrives while text is waiting is sent before that text. The output is in
  input order if and only if that never happens (`StreamForwarder.InOrderIff`), and what waits always
  has a deadline in time if and only if no thinking delta fills its buffer while text is waiting
  (`StreamForwarder.AlwaysTimelyIff`). Both hold for the response shape the code's comment assumes.
- Slack's bold loop renders every span of a document if and only if no bold span that is empty or
  touches the one before it is followed by another (`SlackBolds.SlackRendersDocumentIff`):
  `**a****b****c**` becomes `*a*b*c*`, and `****x**c**` becomes `*x*c**`.
- Exported secrets survive an unchanged round trip if and only if none was redacted in an array
  nested directly in an array: masking reaches any depth, restoring does not. This holds whichever
  of the secrets the masker redacts (`ConfigSecrets.ExportThenRestoreIff`).
- Removing a secret drops its key and no other if and only if the key holds no '=' or hits no entry:
  removing "A=B" drops the entry of "A" when its value starts with "B="
  (`SecretsFile.RemoveTouchesOnlyItsKeyIff`). A run keeps the file the map its operations are meant to
  leave, at every moment, if and only if no removal in it does that (`SecretsFile.RunIsPlainMapIff`).
- Rewriting `secrets.env` keeps the lines it does not change if and only if none of them ends in a
  carriage return (`SecretsFile.WriteReadsBackIff`, `SecretsFile.RemoveReadsBackIff`).
- Two users of a channel share a rate bucket if and only if they are the same or the ':' between
  channel type and platform id can be read in two places (`RateLimiter.SharedBucketIff`).
- A payload survives the SSE framing if and only if it is non-empty, holds no newline, has no trailing
  whitespace and is not the end marker (`SseReader.FrameRoundTripIff`); an unterminated last line is never delivered.
- A client rebuilds the tool calls if and only if no tool input arrives before the first tool start,
  or what does arrive is empty and a start follows (`ToolCalls.ClientRebuildsCallsIff`).
- The rate windows are half-open: a message exactly sixty seconds old no longer counts.

## Model

| member | source | states |
|---|---|---|
| Utf8.EncodeInjective | crates/rusty-hand-api/src/stream_chunker.rs:138-148 | the bytes of a buffer determine its characters, so the byte model says everything the character model does |
| Utf8.EncodeCharDecodes | crates/rusty-hand-api/src/stream_chunker.rs:138-148 | the octets of a character by range and bits, as in the table in section 3 of RFC 3629 |
| Utf8.CharCountEncode | crates/rusty-hand-api/src/stream_chunker.rs:138-140 | counting code points of the bytes counts the characters |
| Utf8.ByteIndexEncode | crates/rusty-hand-api/src/stream_chunker.rs:143-148 | a character offset becomes the length of the encoded prefix before it |
| Utf8.BoundaryIffPrefix | crates/rusty-hand-api/src/stream_chunker.rs:142-148 | the code-point boundaries of an encoded text are exactly the ends of its encoded prefixes |
| Utf8.FindLastInRange | crates/rusty-hand-api/src/stream_chunker.rs:150-157 | returns the last occurrence lying wholly in the range, or none when there is none |
| Utf8.FindLastRefines | crates/rusty-hand-api/src/stream_chunker.rs:150-157 | searching the bytes finds the occurrence that searching the characters finds, at its encoded offset |
| StreamChunkers.BreakEndRefines | crates/rusty-hand-api/src/stream_chunker.rs:77-105 | the prioritised byte search selects the same break as the character search, at its encoded offset |
| StreamChunkers.StreamChunker.Push | crates/rusty-hand-api/src/stream_chunker.rs:32-50 | the line loop over the byte buffer refines pushing over characters |
| StreamChunkers.StreamChunker.SplitOff | crates/rusty-hand-api/src/stream_chunker.rs:83-112 | every slice point is a code-point boundary, and the slices encode the cut characters |
| StreamChunkers.StreamChunker.TryFlush | crates/rusty-hand-api/src/stream_chunker.rs:56-116 | on bytes, gives the encoding of the chunk and state that the character algorithm gives |
| StreamChunkers.StreamChunker.FlushRemaining | crates/rusty-hand-api/src/stream_chunker.rs:119-125 | hands out the whole buffer, or nothing when it is empty |
| Text.WhitespaceCodes | crates/rusty-hand-api/src/stream_chunker.rs:35 | the whitespace of trimming is Unicode's White_Space |
| Text.TrimIsCore | crates/rusty-hand-api/src/stream_chunker.rs:35 | trimming takes away whitespace at both ends, and all of it |
| ChunkerLaws.PushWritten | crates/rusty-hand-api/src/stream_chunker.rs:32-50 | pushing any text, given by its lines, appends it and flips the flag once for each line that begins, after whitespace, with three backticks |
| ChunkerLaws.FlushPriorities | crates/rusty-hand-api/src/stream_chunker.rs:77-116 | outside a fence the chunk ends with the last paragraph break in [min, max), else the last newline, else the last ". ", "! ", "? " in this order, else at exactly max; below max nothing is flushed then |
| ChunkerLaws.FlushClosesAndReopens | crates/rusty-hand-api/src/stream_chunker.rs:62-75 | inside a fence, from max on, the whole buffer goes out with "\n```\n" and "```\n" is left |
| ChunkerLaws.RestLeavesNothing | crates/rusty-hand-api/src/stream_chunker.rs:119-125 | after flush_remaining in any run the chunks are the pushed text with the marker at each forced close |
| ChunkerLaws.WeaveOne | crates/rusty-hand-api/src/stream_chunker.rs:67-75 | that marker is "\n```\n```\n" |
| ChunkerSpec.PushFlipsPerFenceLine | crates/rusty-hand-api/src/stream_chunker.rs:31-50 | the flag flips once per fence line whatever its language tag, the marker is set exactly while it is on, and all text is kept |
| ChunkerCuts.PushAppendIff | crates/rusty-hand-api/src/stream_chunker.rs:32-50 | pushing a text in two parts cut anywhere reaches the state of pushing it whole, if and only if the line the cut falls in is a fence exactly when just one of its two pieces is |
| ChunkerCuts.PushInPartsIff | crates/rusty-hand-api/src/stream_chunker.rs:32-50 | for any number of parts: if and only if the cuts that fail this are even in number |
| ChunkerSpec.PushInParts | crates/rusty-hand-api/src/stream_chunker.rs:33-48 | the case that always works: every cut comes after a newline |
| ChunkerSpec.PushSplitFenceMissed | crates/rusty-hand-api/src/stream_chunker.rs:33-37 | an input on the failing side of PushAppendIff: a fence line arriving in two pieces is not recognised |
| ChunkerSpec.BreakEndIsPreferred | crates/rusty-hand-api/src/stream_chunker.rs:81-105 | the break found ends the last occurrence of the first pattern of the list that occurs in the range; none is found only if none occurs |
| ChunkerSpec.FlushOutsideFence | crates/rusty-hand-api/src/stream_chunker.rs:56-116 | outside a fence, exactly when nothing is flushed, and otherwise a prefix of at most max characters ending at the preferred break or at exactly max |
| ChunkerSpec.FlushInsideFence | crates/rusty-hand-api/src/stream_chunker.rs:62-75 | an open fence holds everything below max; from max on all is flushed with a closing fence and an opening one is left |
| ChunkerBlocks.FlushCutsAt | crates/rusty-hand-api/src/stream_chunker.rs:77-116 | outside a fence a flush cuts exactly at the cut point, which is the preferred break, or max when no pattern occurs |
| ChunkerBlocks.BlockOpenResumes | crates/rusty-hand-api/src/stream_chunker.rs:33-48 | the fence state of a text from that of any prefix: flipped by each fence line finished since |
| ChunkerBlocks.FlushCutsBlockIff | crates/rusty-hand-api/src/stream_chunker.rs:9-116 | in any run, after any flush what was handed out ends inside a fenced block: outside a fence, if and only if the fence is open at the cut point; at a forced close, if and only if the miscut pushes are odd in number |
| ChunkerBlocks.FlagIsParity | crates/rusty-hand-api/src/stream_chunker.rs:31-75 | in any run the flag is the fence parity of everything handed out and buffered, markers included, unless the miscut pushes are odd in number |
| ChunkerBlocks.ForcedCloseIff | crates/rusty-hand-api/src/stream_chunker.rs:62-75 | a forced close hands out the buffer and a closing fence, and ends inside a block if and only if the miscut pushes are odd in number |
| ChunkerBlocks.WholeLinesCloseBlocks | crates/rusty-hand-api/src/stream_chunker.rs:62-75 | when only the last push may end inside a line, a forced close ends outside every block |
| ChunkerBlocks.CutsClosedBlockIff | crates/rusty-hand-api/src/stream_chunker.rs:9-116 | for all limits: some text pushed in one call whose blocks are then closed is handed out with a chunk ending inside one, if and only if max >= 1 |
| ChunkerBlocks.PiecesCutClosedBlock | crates/rusty-hand-api/src/stream_chunker.rs:31-75 | for all limits, 0 included: a closed block whose closing fence arrives in two pieces is handed out by a forced close that ends inside a block |
| ChunkerSpec.ClosedFenceIsCut | crates/rusty-hand-api/src/stream_chunker.rs:9-10 | a small such case: max 6 cuts the block of "```", "a", "```" |
| ChunkerSpec.DrainsIff | crates/rusty-hand-api/src/stream_chunker.rs:56-116 | draining ends from every state if and only if max >= 1 and min or max is at least 5 |
| ChunkerSpec.StuckAfterPush | crates/rusty-hand-api/src/stream_chunker.rs:56-116 | with all other limits one push from the start reaches a state in which `try_flush` returns a chunk for ever |
| ChunkerSpec.RunConserves | crates/rusty-hand-api/src/stream_chunker.rs:32-125 | over every run of push, try_flush and flush_remaining the chunks followed by the buffer are the pushed text with one close-and-reopen marker at each forced close, and the flag is the parity of fence lines |
| StreamForwarder.HandleEvent | crates/rusty-hand-api/src/ws.rs:549-632 | one received event changes buffers, deadline and output as the step function says |
| StreamForwarder.Forward | crates/rusty-hand-api/src/ws.rs:519-652 | the select loop sends exactly the output of the run up to the close |
| StreamForwarder.RunAccounts | crates/rusty-hand-api/src/ws.rs:525-651 | for every interleaving of events and timer firings, text sent plus text buffered is the text received, likewise thinking, and sent output only grows |
| StreamForwarder.ClosedRunSentAll | crates/rusty-hand-api/src/ws.rs:535-548 | once the channel closed, all text and thinking received has been sent |
| StreamForwarder.NonDeltaIsBarrier | crates/rusty-hand-api/src/ws.rs:591-632 | the typing message of a tool start and the JSON of any other event, in this order, come after all text and thinking received before the event and before all received after it |
| ForwarderLaws.ControlInOrder | crates/rusty-hand-api/src/ws.rs:606-632 | over every run the JSON bodies sent are those received, the typing messages are the names of the tool starts, and each directly precedes its event's JSON, all in order |
| ForwarderLaws.BuffersStayShort | crates/rusty-hand-api/src/ws.rs:562-590 | at every moment of a run each buffer holds less than 200 bytes |
| ForwarderLaws.SentWhenDue | crates/rusty-hand-api/src/ws.rs:535-651 | a delta is sent on its arrival only when its buffer has 200 bytes; a text delta first sends waiting thinking, a thinking delta no text, every other input all that waits |
| ForwarderLaws.DeadlineIsArmed | crates/rusty-hand-api/src/ws.rs:527-649 | the timer is due 100 ms after the first delta kept waiting since it last fired, a buffer filled up or another event came, and otherwise a day after the start |
| StreamForwarder.InOrderIff | crates/rusty-hand-api/src/ws.rs:550-603 | the output followed by the buffers is the input in full order if and only if no thinking arrives while text waits |
| StreamForwarder.OvertakingWitness | crates/rusty-hand-api/src/ws.rs:535-590 | an input on the failing side of InOrderIff: thinking behind waiting text is sent first |
| StreamForwarder.ClosedRunInOrderIff | crates/rusty-hand-api/src/ws.rs:535-603 | the same for the messages alone once the channel closed |
| StreamForwarder.ThinkingFirstInOrder | crates/rusty-hand-api/src/ws.rs:551-553 | on the response shape the comment assumes, the output is the input in full order |
| StreamForwarder.OneBufferInUse | crates/rusty-hand-api/src/ws.rs:550-590 | without overtaking at most one buffer is non-empty at any time |
| StreamForwarder.AlwaysTimelyIff | crates/rusty-hand-api/src/ws.rs:562-590 | every waiting buffer has a flush due within 100 ms of its first character at every moment, if and only if no thinking delta fills its buffer while text waits |
| StreamForwarder.StrandingWitness | crates/rusty-hand-api/src/ws.rs:579-585 | an input on the failing side of AlwaysTimelyIff: text waits with no deadline after a long thinking delta |
| StreamForwarder.ThinkingFirstTimely | crates/rusty-hand-api/src/ws.rs:522-603 | on the assumed response shape whatever waits is always due in time |
| RateLimiter.ChannelRateLimiter.Check | crates/rusty-hand-channels/src/bridge.rs:259-285 | over the history of all calls, the bucket of each joined key is that of its own calls and the verdict is theirs; every other key unchanged, limit zero unlimited and unrecorded |
| RateLimiter.MessageGate.Admit | crates/rusty-hand-api/src/ws.rs:300-371 | oversized messages are refused and not counted; others join the history and are judged by the same window with limit ten |
| RateLimiter.BucketSeesHistory | crates/rusty-hand-channels/src/bridge.rs:273-283 | the evicting bucket shows of every window exactly what the full history of admitted times has in it |
| RateLimiter.RefusedIffWindowFull | crates/rusty-hand-channels/src/bridge.rs:275-281 | a call is refused exactly when the limit was reached by messages admitted in the last sixty seconds, however limits varied |
| RateLimiter.AdmittedIffFewer | crates/rusty-hand-channels/src/bridge.rs:270-284 | in numbers: a call is admitted while fewer messages than its limit were admitted less than 60 000 ms before it, and then its time joins the history |
| RateLimiter.WindowBound | crates/rusty-hand-channels/src/bridge.rs:259-285 | with a fixed limit, admitted messages limit places apart are at least sixty seconds apart |
| RateLimiter.WindowCount | crates/rusty-hand-api/src/ws.rs:300-370 | every half-open sixty-second window of any run holds at most the limit of admitted messages |
| RateLimiter.KeyedRefusedIff | crates/rusty-hand-channels/src/bridge.rs:264-285 | in any interleaving of keys a call is refused exactly when its own key reached the limit in the last sixty seconds |
| RateLimiter.KeyedAdmittedIffFewer | crates/rusty-hand-channels/src/bridge.rs:264-285 | the same for one of many keys in any interleaving |
| RateLimiter.KeyedWindowCount | crates/rusty-hand-channels/src/bridge.rs:264-285 | in any interleaving of keys every sixty-second window holds at most the limit of admitted messages of each key |
| RateLimiter.SharedBucketIff | crates/rusty-hand-channels/src/bridge.rs:269 | two users share a bucket if and only if they are the same or the ':' between their parts can be read in two places |
| RateLimiter.OwnBuckets | crates/rusty-hand-channels/src/bridge.rs:269 | with no ':' in the channel types every user has a bucket of their own |
| RateLimiter.SharedBucketWitness | crates/rusty-hand-channels/src/bridge.rs:269 | an input on the other side: type "a:b" with id "c", and type "a" with id "b:c" |
| Formatter.RewritePairs | crates/rusty-hand-channels/src/formatter.rs:26-75 | the bold and code loops terminate, and leave no two disjoint markers |
| Formatter.PairsRenderDocument | crates/rusty-hand-channels/src/formatter.rs:26-75 | every marked span of a document gets its tags around its own text and everything else is kept |
| Formatter.LinkShrinks | crates/rusty-hand-channels/src/formatter.rs:77-98 | each link round removes a '[' in every format |
| Formatter.RewriteLinks | crates/rusty-hand-channels/src/formatter.rs:77-98 | the link loop terminates with no '[' ... "](" ... ')' left |
| Formatter.FirstPairRewritten | crates/rusty-hand-channels/src/formatter.rs:26-75 | for every text the first two markers become the opening and the closing tag, and rewriting goes on |
| Formatter.NoPairKept | crates/rusty-hand-channels/src/formatter.rs:26-75 | a text with fewer than two disjoint markers is left alone |
| Formatter.FirstLinkRewritten | crates/rusty-hand-channels/src/formatter.rs:77-98 | for every text the first link becomes an anchor with its address, Slack's form with address and text in angle brackets, or the text followed by the address in parentheses, and rewriting goes on |
| Formatter.NoLinkKept | crates/rusty-hand-channels/src/formatter.rs:77-98 | a text without a link is left alone |
| Formatter.LinksRenderDocument | crates/rusty-hand-channels/src/formatter.rs:118-190 | every link of a document is rendered once, in place, its address and its text where the format wants them |
| Formatter.ThreePassesStrip | crates/rusty-hand-channels/src/formatter.rs:148-167 | for every input the "**" removal, the isolated-'*' pass and the backtick removal together delete every '*' and every backtick |
| Formatter.MarkdownToPlain | crates/rusty-hand-channels/src/formatter.rs:145-193 | plain text is the stripped text with its links rendered, and no link left |
| Formatter.MarkdownToSlackMrkdwn | crates/rusty-hand-channels/src/formatter.rs:104-142 | the Slack loops compute the composed rewriting and leave no link; where the asterisks end up is SlackBolds.SlackMrkdwnRendersIff |
| Formatter.SlackBoldKeepsText | crates/rusty-hand-channels/src/formatter.rs:107-116 | the Slack bold loop changes nothing but asterisks, for every input |
| SlackBolds.SlackRendersDocumentIff | crates/rusty-hand-channels/src/formatter.rs:107-116 | for every document without asterisks in its pieces: the bold loop renders every bold span in place if and only if no bold span that is empty or touches the one before it is followed by another |
| SlackBolds.SlackMrkdwnRendersIff | crates/rusty-hand-channels/src/formatter.rs:104-142 | the same for the whole Slack conversion of a document without '[' |
| SlackBolds.SlackLinksComeLast | crates/rusty-hand-channels/src/formatter.rs:104-142 | the links are rewritten after the bold markers: two of three markers pair up across a link |
| SlackBolds.SlackWitness | crates/rusty-hand-channels/src/formatter.rs:107-116 | an input on the failing side: "**a****b****c**" becomes "*a*b*c*" |
| SlackBolds.EmptyBoldWitness | crates/rusty-hand-channels/src/formatter.rs:107-116 | another: "****x**c**" becomes "*x*c**" |
| Formatter.MarkdownToTelegramHtml | crates/rusty-hand-channels/src/formatter.rs:23-101 | the Telegram loops compute the composed rewriting and leave no link |
| TelegramDocuments.ItalicByRuns | crates/rusty-hand-channels/src/formatter.rs:37-59 | for every text, told by its runs: a single asterisk becomes a tag, opening and closing in turn, and longer runs and all else are kept |
| TelegramDocuments.TelegramRendersDocument | crates/rusty-hand-channels/src/formatter.rs:23-101 | in a document of words, bold, italic, code and links every piece gets its own tags around its own text, links their address, and all else is kept |
| TelegramDocuments.LinksComeLast | crates/rusty-hand-channels/src/formatter.rs:61-98 | the links are rewritten after the code: code tags end up in the address of a link |
| TelegramTags.PairsAddTags | crates/rusty-hand-channels/src/formatter.rs:26-75 | a pair loop keeps the visible text and all other tags and adds opening and closing tags in equal number |
| TelegramTags.TelegramPreservesText | crates/rusty-hand-channels/src/formatter.rs:23-101 | without '<', '>', '[' in the input: removing tags and ignoring '*' and backticks gives the text back; italic, bold and code tags each alternate, an opening one first; every bold and code tag opened is closed; at most one backtick is left |
| TelegramTags.PairsAlternate | crates/rusty-hand-channels/src/formatter.rs:26-75 | the tags a pair loop adds alternate and all that open are closed |
| TelegramTags.CrossedTags | crates/rusty-hand-channels/src/formatter.rs:23-75 | across kinds they need not nest: "***a***" becomes bold and italic tags that cross |
| SseReader.Stream | sdk/python/rustyhand_client.py:96-113 | the events of any chunking are those of the concatenated text's complete lines up to the end marker |
| SseReader.LineIsRead | sdk/python/rustyhand_client.py:102-113 | in any stream a line adds an event if and only if, trimmed, it begins with "data: " and the end marker has not come: the text after these six characters, except that "[DONE]" ends the stream; an unfinished line adds nothing |
| SseReader.OnlyDataLinesCount | sdk/javascript/index.js:93-105 | whatever event names, comments and blank lines are mixed in, the events are those of the data lines |
| SseReader.SplitResumes | sdk/javascript/index.js:90-92 | splitting can resume from the unfinished last line |
| SseReader.FrameRoundTripIff | sdk/javascript/index.js:86-105 | framing any payloads and reading back returns exactly them in order if and only if each is non-empty, holds no newline, has no trailing whitespace and is not the end marker |
| SseReader.EventsHoldNoNewline | sdk/javascript/index.js:90-99 | no event of any stream holds a newline |
| SseReader.EndMarkerWitness | sdk/javascript/index.js:97-98 | an input on the failing side: a payload equal to the end marker is not delivered |
| ConfigSecrets.RestoreRedactedSecrets | crates/rusty-hand-api/src/routes.rs:8741-8783 | the in-place walk computes the restored tree, in whatever order entries are visited |
| ConfigPaths.RestoredLeaf | crates/rusty-hand-api/src/routes.rs:8736-8783 | for every path: a placeholder under a secret key becomes the string at the same path of the current configuration, if there is one; every other leaf, and a placeholder whose path is missing there, stays |
| ConfigPaths.RestoredPaths | crates/rusty-hand-api/src/routes.rs:8741-8783 | a path leads somewhere in the restored tree exactly when it does in the edited one |
| ConfigPaths.NewTableWitness | crates/rusty-hand-api/src/routes.rs:8753-8759 | a placeholder in a table the current configuration lacks stays one, whatever secrets the tables around it hold |
| ConfigPaths.MaskedLeaf | crates/rusty-hand-types/src/secret_mask.rs:3-12 | masking as the comment describes it redacts every string under a secret key, at whatever path, and no other leaf |
| ConfigSecrets.ExportThenRestoreIff | crates/rusty-hand-api/src/routes.rs:8736-8783 | whatever secret-named strings a masker redacts, restoring the export against the original gives the original if and only if nothing was redacted in an array directly inside an array |
| ConfigSecrets.MaskIsExport | crates/rusty-hand-types/src/secret_mask.rs:3-12 | masking every secret at any depth is such an export, and what it redacts in nested arrays are the secrets there |
| ConfigSecrets.MaskThenRestoreIff | crates/rusty-hand-api/src/routes.rs:8736-8783 | masking every secret of a tree and restoring against the original gives the original if and only if no secret sits in an array directly inside an array |
| ConfigSecrets.NestedArrayWitness | crates/rusty-hand-api/src/routes.rs:8760-8779 | an input on the failing side: `a = [[{ k = "x" }]]` with secret k comes back redacted |
| ConfigSecrets.MaskFixedIff | crates/rusty-hand-types/src/secret_mask.rs:3-12 | masking every secret, as the comment describes it, changes a tree exactly when some secret-named string in it is not already redacted |
| ConfigSecrets.RestoreTableKeepsEdits | crates/rusty-hand-api/src/routes.rs:8736-8740 | restoring any edited tree keeps keys, shape and every value that is not a redacted secret |
| ConfigSecrets.RestoreIdempotent | crates/rusty-hand-api/src/routes.rs:8736-8740 | restoring twice equals restoring once |
| SecretsFile.SecretsEnv.Write | crates/rusty-hand-api/src/routes.rs:6647-6682 | malformed keys and values are rejected with the file unchanged; otherwise the new content |
| SecretsFile.SecretsEnv.Remove | crates/rusty-hand-api/src/routes.rs:6726-6737 | a missing file stays missing; otherwise the content without the key's lines |
| SecretsFile.WrittenText | crates/rusty-hand-api/src/routes.rs:6662-6682 | the text written: the kept lines, then the one line of the secret, each with its newline |
| SecretsFile.RemovedText | crates/rusty-hand-api/src/routes.rs:6726-6737 | the text left by a removal: the kept lines, or one blank line; a missing file stays missing |
| SecretsFile.DropsJustItsLines | crates/rusty-hand-api/src/routes.rs:6671-6672 | every line is judged by itself: those that begin with the key and '=' go, all others stay in order |
| SecretsFile.FileLineRead | crates/rusty-hand-api/src/routes.rs:6663-6666 | lines end in "\n" or "\r\n"; an unfinished last line is read as it is |
| SecretsFile.ContentReadsBack | crates/rusty-hand-api/src/routes.rs:6662-6682 | lines written and read back lose the carriage return they end in, if any; none read back as one blank line |
| SecretsFile.ContentRoundTrip | crates/rusty-hand-api/src/routes.rs:6662-6682 | lines that end in no carriage return, written and read back, are the same lines, or one blank line when there were none |
| SecretsFile.WriteReadsBackIff | crates/rusty-hand-api/src/routes.rs:6662-6682 | a write reads back as the kept lines and the new one if and only if no kept line ends in a carriage return |
| SecretsFile.RemoveReadsBackIff | crates/rusty-hand-api/src/routes.rs:6726-6737 | the same for a removal |
| SecretsFile.ReturnWitness | crates/rusty-hand-api/src/routes.rs:6662-6682 | an input on the failing side: writing B drops the carriage return that ended the unterminated line of A |
| SecretsFile.WrittenKeyHasOneLine | crates/rusty-hand-api/src/routes.rs:6671-6675 | a written key has exactly one line, with its value, and the lines of every other key stay |
| SecretsFile.EntriesWithout | crates/rusty-hand-api/src/routes.rs:6671-6734 | for every key, with or without '=', the lines dropped are exactly those whose entry is hit: the key's own, or for "A=B" that of "A" when its value starts with "B=" |
| SecretsFile.RemoveTouchesOnlyItsKeyIff | crates/rusty-hand-api/src/routes.rs:6726-6737 | removing a key drops that key from the map and changes no other, if and only if it holds no '=' or hits no entry of the map |
| SecretsFile.RunIsPlainMapIff | crates/rusty-hand-api/src/routes.rs:6647-6737 | at every moment of a run the file stands for the map its writes and removals are meant to leave, if and only if no removal in it hits the entry of another key |
| SecretsFile.RemoveIsDropHitIff | crates/rusty-hand-api/src/routes.rs:6726-6737 | removing any key drops just the entry it hits, which for a key with '=' is that of another key, if and only if it does not uncover a second line of that entry's key |
| SecretsFile.UncoverWitness | crates/rusty-hand-api/src/routes.rs:6726-6737 | an input on the failing side of both: removing "A=B" from the lines "A=B=C", "A=D" leaves A with value D |
| SecretsFile.RunIsEntries | crates/rusty-hand-api/src/routes.rs:6647-6737 | over any sequence of writes and removals of any keys the file holds exactly the original entries edited in order, and its non-blank lines likewise |
| SecretsFile.RunIsMap | crates/rusty-hand-api/src/routes.rs:6647-6737 | over any sequence of writes and removals the file stays the finite map they leave, where removing "A=B" includes the loss of an entry of "A" it hits: for all keys when the starting file has one line per key, and from any file when no removed key contains '=' |
| SecretsFile.NoReturnIsClear | crates/rusty-hand-api/src/routes.rs:6662-6666 | a file without carriage returns meets the starting condition of the run theorem |
| ToolCalls.Forward | crates/rusty-hand-api/src/openai_compat.rs:418-559 | the forwarder sends the role chunk, the mapped events and the finish chunks |
| ToolCalls.OneChunkPerEvent | crates/rusty-hand-api/src/openai_compat.rs:453-543 | one chunk for a text delta, a tool start or a tool input and none for any other event, with the number of starts before it as index, and one less for an input |
| ToolCalls.ClientHolds | crates/rusty-hand-api/src/openai_compat.rs:466-543 | what an index-accumulating client holds after any stream: one call per start, orphaned input in front of the first, and all text in order |
| ToolCalls.ClientRebuildsCallsIff | crates/rusty-hand-api/src/openai_compat.rs:527-536 | the client rebuilds exactly one call per tool start at indices 0..n-1 if and only if no tool input was misplaced before the first start |
| ToolCalls.OrphanWitness | crates/rusty-hand-api/src/openai_compat.rs:527-536 | an input on the failing side: tool input before the first start ends up in the first call |
| StreamDedup.Normalize | crates/rusty-hand-api/src/stream_dedup.rs:78-95 | the collapsing loop equals joining the lowered words with single spaces |
| StreamDedup.NormalFormOfSpaced | crates/rusty-hand-api/src/stream_dedup.rs:78-95 | whatever whitespace lies between, before and after the words of a text, its normal form is the words, lowered, with one space between two |
| StreamDedup.NormalFormIsWords | crates/rusty-hand-api/src/stream_dedup.rs:77-95 | two texts have the same normal form exactly when they have the same lowered words |
| StreamDedup.StreamDedup.IsDuplicate | crates/rusty-hand-api/src/stream_dedup.rs:33-46 | a duplicate is exactly a long-enough text whose normal form is that of one of the last fifty recorded since the last clear |
| StreamDedup.StreamDedup.RecordSent | crates/rusty-hand-api/src/stream_dedup.rs:49-62 | long-enough texts are recorded, the two vectors stay in step and hold the last fifty |
| StreamDedup.StreamDedup.Clear | crates/rusty-hand-api/src/stream_dedup.rs:65-68 | forgets everything recorded |
| DiscordGateway.MessageLoop | crates/rusty-hand-channels/src/discord.rs:293-502 | the inner loop handles frames until one ends the connection |
| DiscordGateway.Gateway | crates/rusty-hand-channels/src/discord.rs:248-516 | the nested loops produce the log of the run, from the stored session and resume address |
| DiscordGateway.RunHappens | crates/rusty-hand-channels/src/discord.rs:260-516 | over every run the log holds each attempt, each accepted connection with its frames up to the first RECONNECT or INVALID_SESSION, and one wait after each attempt, and nothing else of these |
| DiscordGateway.EveryItemJustified | crates/rusty-hand-channels/src/discord.rs:248-516 | over every run, whatever session and resume address were stored before: each HELLO is answered by RESUME with the latest session and sequence number or by IDENTIFY exactly when one is missing, heartbeats are sent exactly when due, connections go to the gateway until one was dropped and then to the latest resume address, and the k-th wait since a success is min(2^(k-1), 60) seconds |

## Left out

- Sends that fail, sockets, file permissions, environment variables and runtime scheduling: the model assumes sends succeed and keeps only traces of what is sent; a failed send ends a connection early.
- Shutdown and the consumer hanging up in the gateway loop: both end the run at once; message parsing of MESSAGE_CREATE is an opaque dispatch.
- The 24-hour instant that stands for "no deadline": forwarder timeliness is stated for runs that end before it.
- StreamForwarder.AlwaysTimelyIff: states when a flush is due; that the timer then fires promptly is the runtime's promise.
- StreamForwarder.ClosedRunSentAll: is about runs that see the channel close; the forwarder task is aborted once the agent loop returns (crates/rusty-hand-api/src/ws.rs:655-658), so a run can also end with text still buffered and unsent.
- The verbosity mapping of stream events: each non-delta event carries the JSON it maps to.
- JSON parsing in the SDK readers: a yielded event is a function of its payload. Chunks are already decoded text; a chunk that splits a code point makes the Python reader raise, which is not modelled.
- ConfigSecrets.MaskIsExport: like ConfigSecrets.MaskFixedIff it is about the masking the comments describe, not about the scanner of text lines.
- ConfigSecrets.MaskFixedIff: describes masking on the parsed tree, as the comments of crates/rusty-hand-types/src/secret_mask.rs do; the code (28-95 there) scans text lines and skips secrets under dotted keys such as a.api_key, under quoted keys and in single quotes, and can rewrite text inside a multi-line string. ConfigSecrets.ExportThenRestoreIff covers every choice of redacted secrets, but not such rewritten text; that the scanner's output parses to such a tree is not proved.
- Reading `secrets.env` into the environment (crates/rusty-hand-cli/src/dotenv.rs:115-135): trimming and quote stripping of values are not modelled; the map is the text around the first '='.
- SecretsFile.RunIsMap: like the other run theorems of this file it starts from a file with no line that ends in a carriage return; a write or removal that keeps such a line changes it (SecretsFile.ReturnWitness).
- ToolCalls.ClientRebuildsCallsIff: stated for fewer than 2^32 tool starts, where the 32-bit index has not wrapped.
- RateLimiter.ChannelRateLimiter.Check: the shared map's locking is not modelled; calls are taken one after the other.
- Formatting inside other formatting, such as bold in a link text: TelegramDocuments.TelegramRendersDocument is about pieces that hold plain text; for all other texts Formatter.FirstPairRewritten, Formatter.FirstLinkRewritten and TelegramDocuments.ItalicByRuns say what each pass does.
- The HTTP rate limiter (crates/rusty-hand-api/src/rate_limiter.rs): looks up a fixed token cost per route and hands it to an external GCRA library with 500 tokens a minute per address.
- WebSocket connection slots (crates/rusty-hand-api/src/ws.rs:119-140): a counter per address, capped at five, given back when a connection ends.
- Command dispatch and the SDK resource classes: each command or method forwards its arguments to one handler or one HTTP route.
