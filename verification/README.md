# Postman collection scraper — a Dafny model of its request/response core

`multi_webreq.py` opens one Socket.IO websocket to a Postman gateway. From the
open callback it sends one "get" request per collection id, read from 99 page
files. Each request is numbered 1, 2, 3, ... and the number is carried in the
frame prefix `42<n>`. The gateway acknowledges request `n` with a frame
`43<n>[...]`. `on_message` files each acknowledgement under `target/43<n>.json`
by reading the stored list, appending the parsed body and writing the list back.
When a session ends with an exception, the client reconnects after a delay
that doubles each time, up to 32 seconds.

In the Socket.IO packet encoding, the first digit `4` is the Engine.IO
"message" packet type. The second digit is the Socket.IO packet type: `2` is
EVENT and `3` is ACK. The acknowledgement id follows, then the JSON payload,
with no separator.

The model has one module per component:

- `Text` (`text.dfy`): Python's `str.find` for one character, `str.strip()`
  (with the full `str.isspace` character set), `str(n)`, and reading digits back.
- `JsonValue` (`json.dfy`): JSON values. `json.loads` is passed around as a
  function `string -> Option<Json>`. `json.dumps` is passed as a function
  `Json -> string`, and the only assumption about it is that a list is written
  starting with `[` (`ListSerializer`).
- `Encoder` (`encoder.dfy`): `send_dynamic_message`. It builds the request
  event and the frame `"42" + str(n) + dumps(event)`, and decodes the frame back
  with the router's split-at-first-`[` rule.
- `Router` (`router.dfy`): `on_message`. It filters and splits a frame (as pure
  functions) and does the read-modify-write of a bucket file. The output
  directory is a class `TargetDirectory` whose `files` field maps a file name
  to its content. A name missing from the map is a missing file. `NotText` is
  a file whose bytes do not decode as text. `NotJson` is a file that is not
  valid JSON. `Stored(v)` is a file holding the JSON value `v`.
- `Dispatcher` (`dispatcher.dfy`): the `run` thread started by `on_open`. It
  is a nested loop over pages 1..99 with the counter `j`.
- `Reconnect` (`reconnect.dfy`): `reconnect_with_backoff`. It is a loop over a
  finite list of session outcomes that records the delay slept before each
  attempt.
- `Correlation` (`correlation.dfy`): how the two directions fit together. The
  client's own frames never pass the router's filter. The acknowledgement of
  request `n` lands in `43<n>.json`. Different requests get different files.

Behaviour of the code worth knowing:

- The bucket key keeps the `43` marker. The frame `43007[{"a":1}]` goes to
  `43007.json` (`Router.ResponseExample`).
- The file name is the stripped key plus `.json`. Nothing is sanitised.
- There are no per-bucket locks. The read-modify-write is modelled sequentially.
- The sequence counter always starts at 1. There is no configurable base
  offset. Every call of `on_open` starts a new numbering from 1, so numbers
  are unique only within one run of the sending thread.
- There is no connection state machine. Reconnection is one loop that also
  sleeps 1 second before the very first connection.
- A bucket file holding valid JSON that is not a list is not treated as
  empty. `file_data.append` raises `AttributeError`, which `except ValueError`
  does not catch. The model reports this as `AppendRaised` and writes nothing.
- Two more bucket failures drop the frame without writing. A key holding a NUL
  character makes `open` raise `ValueError`. A bucket file whose bytes do not
  decode makes the read raise `UnicodeDecodeError`, which is a `ValueError` but
  not a `json.JSONDecodeError`. Both miss the inner handler and are caught by
  the outer `except ValueError`. The model reports them as `ReadFailed`.

## Model

| member | source | states |
|---|---|---|
| Text.StartsWith | multi_webreq.py:21 | `message.startswith('43')`: the frame is at least as long as the marker and agrees with it character by character |
| Text.Decimal | multi_webreq.py:72 | `str(n)`: a non-empty string of digits with no leading zero (except `"0"` itself), one digit exactly when `n < 10` |
| Text.Find | multi_webreq.py:24 | `message.find('[')`: -1 exactly when there is no `[`; otherwise the index holds `[` and no `[` comes before it |
| Text.Strip | multi_webreq.py:27 | `.strip()`: no whitespace at either end; only characters of the input; on an input that does not start with whitespace, it is a prefix followed only by whitespace; identity on strings without whitespace |
| Text.DigitsValueOfDecimal | multi_webreq.py:72 | reading back the digits of `str(n)` gives `n` |
| Text.DecimalInjective | multi_webreq.py:72 | `str(a) == str(b)` exactly when `a == b` |
| Text.StripTrailingSpaces | multi_webreq.py:27 | stripping a word that has no whitespace at either end, followed by whitespace, gives back the word |
| Encoder.RequestUrl | multi_webreq.py:78 | the URL is the path `/request/?collection=` followed by exactly the collection id |
| Encoder.RequestEvent | multi_webreq.py:73-85 | the request is the two-element list `["get", {...}]`; the object has four members, `method` is `"get"` and `url` is the request path followed by the collection id |
| Encoder.RequestEventNamesCollection | multi_webreq.py:73-85 | the serialised request is a list whose object's `url` member names the collection, and reading the id back from it gives the collection id |
| Encoder.Prefix | multi_webreq.py:72 | `f"42{n}"` starts with `42`, contains no `[`, and its digits read back as `n` |
| Encoder.PrefixInjective | multi_webreq.py:72 | two requests share a prefix exactly when they share a sequence number |
| Encoder.SendDynamicMessage | multi_webreq.py:71-87 | the frame starts with `42`, and its first `[` sits immediately after the prefix, where the serialised list begins |
| Encoder.DecodeOutbound | multi_webreq.py:24-31 | splitting a frame at the first `[`: a successful decode means the frame starts with `42` and ends with a payload that opens with `[` |
| Encoder.DecodeSendDynamicMessage | multi_webreq.py:72-87 | round trip: decoding the frame for request `n` of a collection gives back `n` and the serialised request, and that request names the collection |
| Router.Classify | multi_webreq.py:21-31 | a frame is ignored exactly when it does not start with `43`; a `43` frame has no JSON start exactly when it holds no `[`; a response's key starts with `43` and its body opens with `[` |
| Router.ResponseSplit | multi_webreq.py:24-31 | a response frame is its key, then only whitespace, then its body; the key holds no `[` and does not end in whitespace; the body begins at the first `[` |
| Router.ClassifyResponse | multi_webreq.py:24-31 | converse of the split: any `43` key without `[` or trailing whitespace, followed by whitespace and a `[`-body, is split into exactly that key and body |
| Router.FileName | multi_webreq.py:28 | the file name is the key followed by `.json` |
| Router.ExistingList | multi_webreq.py:35-43 | there is no list to append to exactly when the file's bytes are not text or it holds valid JSON that is not a list; a missing file or invalid JSON counts as `[]` |
| Router.Handle | multi_webreq.py:21-50 | only an append changes the directory; an append is of a response frame, to the file named after its key; it adds or replaces that file and leaves every other file as it was |
| Router.Deliver | multi_webreq.py:19-50 | `on_message` on a raw frame: a frame without `43` is ignored with no change; anything but an append leaves the directory unchanged; an append goes to the file named after the frame's key |
| Router.TargetDirectory.constructor | multi_webreq.py:8-9 | `os.makedirs(exist_ok=True)` keeps whatever files are already there |
| Router.TargetDirectory.AppendToBucket | multi_webreq.py:35-49 | the read fails (caught `ValueError`) exactly when the name holds NUL or the file is not text; otherwise it succeeds exactly when the bucket is missing, invalid JSON or a list; the bucket becomes the previous list (or `[]`) plus the new value, and reads back as that list; on failure nothing changes |
| Router.TargetDirectory.OnMessage | multi_webreq.py:19-50 | the imperative handler's result and new directory are those `Handle` gives for the classified frame |
| Router.NonResponseIgnored | multi_webreq.py:21 | a frame not starting with `43` is ignored and changes no bucket |
| Router.MalformedResponseDropped | multi_webreq.py:24-50 | a `43` frame with no `[`, or whose text from the first `[` fails to parse, changes no bucket and ends as `NoJson` or `InvalidJson` (no exception escapes) |
| Router.UnreadableBucketDropped | multi_webreq.py:35-50 | a parsed response whose key holds NUL, or whose bucket file is not text, ends as `ReadFailed` with the directory unchanged |
| Router.AcceptedResponseAppends | multi_webreq.py:35-47 | after an accepted frame, bucket `<key>.json` holds its previous list (or `[]`) followed by the parsed body, one element longer; every other bucket reads as before |
| Router.HandleAllKeepsFiles | multi_webreq.py:19-50 | handling a run of read frames never removes a file, and a run with no response frame changes nothing |
| Router.DeliverAll | multi_webreq.py:19-50 | `on_message` on each of a run of raw frames never removes a file, and a run in which no frame starts with `43` changes nothing |
| Router.HandleOne | multi_webreq.py:35-47 | one frame adds to a bucket exactly its own parsed body when addressed to it, and nothing otherwise |
| Router.BucketCollectsItsRecords | multi_webreq.py:19-50 | over a run of read frames, a bucket ends as its previous list followed by exactly the bodies addressed to it, in order |
| Router.BucketCollectsItsResponses | multi_webreq.py:19-50 | over a run of raw frames, no response is lost or duplicated: a bucket ends as its previous list followed by exactly the parsed bodies of the frames addressed to it, in arrival order |
| Router.ResponseExample | multi_webreq.py:24-31 | `43007[{"a":1}]` splits into key `43007` (marker kept) and body `[{"a":1}]` |
| Router.DroppedExamples | multi_webreq.py:21-26 | `2[1]` is not a response; `43xyz` has no JSON start |
| Dispatcher.ConcatAppend | multi_webreq.py:63-64 | concatenating the ids of two runs of pages is the concatenation of their ids |
| Dispatcher.PagePosition | multi_webreq.py:63-65 | collection `c` of a page comes right after all collections of earlier pages and the first `c` of its own page |
| Dispatcher.LoadedPages | multi_webreq.py:63-64 | the run reads at most 99 pages, in order; it reads all available pages when fewer exist |
| Dispatcher.Run | multi_webreq.py:61-66 | the k-th send carries the k-th collection id in page order with number k+1; numbers start at 1, strictly increase, and the last equals the number of sends; the run completes exactly when all 99 pages exist |
| Reconnect.NextBackoff | multi_webreq.py:113 | `min(backoff * 2, max_backoff)` is at most 32, is either 32 or double the old value, and never falls below a backoff that was within the cap |
| Reconnect.BackoffBefore | multi_webreq.py:94-113 | the backoff before attempt k is at most 32, and is either 32 or `2^k` |
| Reconnect.BackoffClosedForm | multi_webreq.py:94-113 | the delay before attempt k is `min(2^k, 32)` |
| Reconnect.BackoffBounded | multi_webreq.py:94-113 | every delay lies between 1 and 32 seconds |
| Reconnect.BackoffMonotone | multi_webreq.py:113 | delays never decrease from one attempt to the next |
| Reconnect.BackoffSaturates | multi_webreq.py:95-113 | from the sixth attempt on, every delay is 32 seconds |
| Reconnect.ReconnectWithBackoff | multi_webreq.py:93-113 | the loop sleeps `BackoffBefore(k)` before attempt k; it stops after the first session that returns normally, and it stops only then or when the outcomes run out; every earlier session raised |
| Correlation.AckKey | multi_webreq.py:27 | the key of the acknowledgement of request `n` starts with `43` and its digits read back as `n` |
| Correlation.OwnFrameIgnored | multi_webreq.py:21 | a frame built by `send_dynamic_message` starts with `42`, so `on_message` ignores it and changes no bucket |
| Correlation.AckRoutedByNumber | multi_webreq.py:24-31 | the acknowledgement `43<n>[...]` is split into key `43<n>` and its JSON body |
| Correlation.DistinctRequestsDistinctBuckets | multi_webreq.py:27-28 | acknowledgements of different requests go to different files, and equal requests to the same file |

## Left out

- The websocket connection is not modelled: `WebSocketApp`, `run_forever`, the
  ping timeout, `enableTrace` and the callback wiring (multi_webreq.py:100-106)
  belong to the third-party websocket library and do network I/O. Each session
  appears only through its outcome (`Returned` or `Raised`).
- Threading (multi_webreq.py:68-69) is not modelled. `Run` is a sequential
  method. How the sending thread interleaves with the connection's callback
  thread is concurrency, not sequential behaviour.
- `time.sleep` and `ws.send` are not modelled. The model keeps the delay values
  and the sequence of `send_dynamic_message` calls, not the waiting or the
  transport. A failing `ws.send` would end the thread; the model does not
  capture that.
- Real file I/O is not modelled: `os.makedirs`, `open`, `json.load`,
  `json.dump`, and the directory prefix from `os.path.join`. The directory is a
  map from file name to content. A NUL in the key and an undecodable file are
  modelled (`ReadFailed`). Writing is assumed to succeed, so a key containing
  a path separator, or a failing disk, is not captured.
- `load_collection_ids` is not modelled. Page files are an input sequence of
  id lists. A missing page ends the run. A page file with invalid JSON, or an
  entry with no `id`, is not modelled.
- The internals of `json.loads` and `json.dumps` are not modelled. They are
  function parameters.
- Printing and logging, the empty `on_error` and `on_close`, the hard-coded
  gateway URL and the `__main__` entry point are not modelled.
- Exceptions that are not `Exception` (such as `KeyboardInterrupt`) leave the
  reconnect loop in the source. The model does not include them.
- Reconnect.ReconnectWithBackoff: the source loops forever while sessions
  raise. The model runs over a finite list of outcomes, so it states only
  finite prefixes of that loop.
