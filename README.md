# openai-cli conversation history, in Dafny

This project models the core of `main.py` of the openai-cli chat client: the
conversation state kept by the `ChatGPT` class and the way that state is
turned into the message list sent to the completion service.

- `ChatGPT` keeps two lists that only grow, `_queries` and `_replies`. A reply
  belongs to the query with the same index.
- `ask(query)` appends the query. It then sends `_make_messages(queries, replies)`
  and reads the streamed chunks. It skips chunks whose delta is `None`, yields
  every other delta, and adds it to a reply accumulator. It appends the reply
  only when the stream runs out.
- `_make_messages` walks `zip_longest(queries, replies)`. For each index it
  emits a `user` entry for the query and then an `assistant` entry for the
  reply, leaving out whichever side has run out.

Files:

- `optional.dfy` — `Option`, Python's `X | None`.
- `messages.dfy` — module `Messages`. It holds the role-tagged `Message`,
  `ZipLongest`, and `Linearize`, the recursive specification of the message list.
  `MakeMessages` is the loop of `_make_messages`, proved equal to `Linearize`.
  The lemmas cover length, pairing, the in-flight tail, the per-role round trip
  and when alternation holds.
- `deltas.dfy` — module `Deltas`. `Present` gives the fragments a stream of
  optional deltas yields, and `Concat` gives the reply accumulated from them.
  The lemmas cover how these compose and how `None` deltas are skipped.
- `chat.dfy` — module `Chat`. It holds the class `ChatGPT` with the fields
  `queries` and `replies`, the method `Ask`, and lemmas and client methods
  about a drained turn and turns cut short.

The stream is an input of `Ask`. `deltas: seq<Option<string>>` holds the deltas
of the chunks as far as the stream was read. `end` is `Exhausted` when the
stream then ran out. It is `CutShort` when the stream raised, or when the
consumer stopped pulling. Only `Exhausted` appends a reply.

Behaviour of `main.py` that the model keeps as written:

- Nothing stops `ask` from being called while an earlier reply is still
  missing.
- There is no timeout recovery. The `APITimeoutError` handler at main.py:62-65
  wraps only the creation of the generator, so it never fires. A timeout
  surfaces in the `for` loop of main.py:68, where nothing catches it.
- A cut-short stream appends no reply, not even a partial one.
- Only `None` deltas are skipped. Every other delta is yielded and added to
  the reply as it is, the empty string included.

## Model

| member | source | states |
|---|---|---|
| Messages.MakeMessages | main.py:74-82 | the loop over `zip_longest` returns exactly `Linearize(queries, replies)`, with one message per query plus one per reply |
| Messages.ZipLongest | main.py:77 | one row per index up to the longer list; each side is present exactly while its list lasts, so no row is all fill |
| Messages.Entries | main.py:78-81 | one `zip_longest` row gives one entry per side that is not `None`: the query first, as `user`, and the reply last, as `assistant` |
| Messages.Linearize | main.py:74-82 | the message list has exactly `|queries| + |replies|` entries, because no element is ever `None` |
| Messages.PairedAt | main.py:77-81 | for every index both lists reach, query `i` sits at position `2i` as `user`, and reply `i` follows it at `2i+1` as `assistant` |
| Messages.ExtraQueryAt | main.py:77-79 | queries past the last reply come one after another at the end, each as a `user` entry |
| Messages.ExtraReplyAt | main.py:77-81 | replies past the last query come one after another at the end, each as an `assistant` entry |
| Messages.InFlightTail | main.py:77-81 | with one more query than replies, the last message is the final query as `user`, and no `assistant` entry follows it |
| Messages.ContentsRoundTrip | main.py:74-82 | keeping only the `user` contents gives back `queries` in order, and keeping only the `assistant` contents gives back `replies` in order |
| Messages.AlignedAlternates | main.py:74-82 | with as many replies as queries, or one fewer, roles alternate strictly: `user` at even positions, `assistant` at odd ones |
| Messages.QueriesAheadBreakAlternation | main.py:77-81 | with two or more queries beyond the replies, some message has the wrong role for its position |
| Messages.RepliesAheadBreakAlternation | main.py:77-81 | with more replies than queries, some message has the wrong role for its position |
| Messages.AlternatesIff | main.py:74-82 | strict alternation holds if and only if `|queries| - |replies|` is 0 or 1 |
| Deltas.Present | main.py:42-47 | the yielded fragments are no more than the chunks, and each one is a delta that was present in the stream |
| Deltas.Concat | main.py:41-48 | the reply accumulated from the fragments starts with the first fragment yielded |
| Deltas.PresentAppend | main.py:42-47 | what a stream yields is what its first part yields followed by what the rest yields |
| Deltas.ConcatAppend | main.py:41-48 | the accumulated reply of two runs of fragments is the two accumulated replies joined |
| Deltas.NoneIsSkipped | main.py:43-45 | a chunk whose delta is `None`, wherever it occurs, changes nothing the stream yields, and the accumulated reply is the reply of the chunks before it followed by the reply of the chunks after it |
| Deltas.PresentOfSomes | main.py:42-47 | a stream whose deltas are all present yields exactly those deltas, in order |
| Deltas.ShownIsPrefixOfReply | main.py:47-48 | the recorded reply is the text shown up to and including any fragment, followed by the fragments after it |
| Deltas.SplitByEmptyChunk | main.py:42-48 | the stream delta, `None`, delta yields the two deltas and accumulates their concatenation |
| Chat.ChatGPT.constructor | main.py:26-30 | both lists start empty |
| Chat.ChatGPT.Ask | main.py:32-49 | appends the query first. It sends the model and `Linearize(new queries, old replies)`, which ends with the query as `user` and alternates when no turn was pending. It yields exactly the present deltas. A drained stream appends exactly one reply, equal to their concatenation, and a cut-short stream appends none. Earlier entries are unchanged, and the number of unanswered queries grows by one exactly when the stream is cut short |
| Chat.TwoPendingAt | main.py:77-79 | two queries with no reply after them sit side by side as `user` entries, so the list does not alternate |
| Chat.CutShortTurnBreaksAlternation | main.py:33-49 | after a cut-short turn, the next request holds the abandoned query and the new one as two `user` entries in a row, so it does not alternate |
| Chat.CutShortTurnShiftsPairing | main.py:33-49 | once the turn after a cut-short one completes, its reply is placed right after the abandoned query, which it does not answer |
| Chat.CutShortTurnQueryComesLast | main.py:33-49 | that completed turn's own query comes after the reply it received, as the last entry |
| Chat.DrainedTurn | main.py:32-49 | a turn streamed as delta, `None`, delta yields the two deltas and leaves the history as the query followed by their concatenation |
| Chat.CutShortTurn | main.py:32-49 | on a fresh session, a cut-short turn followed by a complete one sends two queries in a row and leaves the history pairing the reply with the first query |

## Left out

- The OpenAI client and the streaming HTTP call (main.py:9, 30, 35-39) are foreign network code. The model keeps only the model name in the request and takes the resulting deltas as an input. The API key only configures the client and is not modelled.
- Each chunk's delta is taken as `chunk.choices[0].delta.content` (main.py:43). A chunk with no choices, which would raise `IndexError`, is not modelled.
- `cli` (main.py:52-71) is terminal I/O and an endless prompt loop. This includes its `APITimeoutError` handler, which never fires, as described above.
- `main`'s `KeyboardInterrupt`/`EOFError` handling (main.py:19-22) is process-level signal handling.
- `parse_args` and the environment defaults (main.py:85-90) are argparse and `os.environ` plumbing.
- Chat.ChatGPT.Ask: Python generator suspension is not modelled. `Ask` runs from the generator's first pull to the end of its pull loop. Two facts follow. A generator that is never pulled does not even append its query. Another `ask` on the same object while a generator is suspended is not modelled.
