# Media streamer capture-session controller, in Dafny

This project models the HTTP-controlled camera streamer of `main.c`. An
embedded web server routes four request kinds to handlers:

- `/setstream` updates the capture record `stMediastreamer`;
- `/getstream` reports fields of that record;
- `/startstream` clears the pixel format, applies the request like a set,
  and builds and plays a GStreamer capture pipeline whose samples go back
  to the requesting client;
- `/stopstream` sends end-of-stream to the running camera source.

The model covers the request parsing (`strtok` on `&`, `strtok_r` on `=`,
`atoi`, `"%d"`), the record and its defaults, the choice of camera backend,
the pipeline shape and caps, the delivery mode and byte layout of each
sample, the bus watch, and the session flag `video_capture_started` that
decides whether a start builds a pipeline.

Modules, one file each:

- `Options` (options.dfy): an `Option` type.
- `Text` (text.dfy): `strtok` with one delimiter (`Tokens`), `atoi`, and
  the `"%d"` rendering (`Decimal`), with their round trips.
- `Query` (query.dfy): splitting a token into a key and a value
  (`SplitPair`), the pairs of a request URI (`RequestPairs`), and the pairs
  the C loops actually visit, trailing pass included (`LoopPairsAsWritten`).
- `Settings` (settings.dfy): the record, its defaults, the update of a set
  request (`ApplyPairs`), the record a start request uses (`StartConfig`),
  and the body of a get reply (`GetBody`).
- `Capture` (capture.dfy): backend selection, created elements, the
  pipeline plan (chain and caps), and `on_message`.
- `Framing` (framing.dfy): the bytes each appsink callback writes, raw or
  framed, and a client's parse of a framed stream.
- `MediaStreamer` (streamer.dfy): the loops of the set and get handlers as
  methods, and the class `Streamer` holding the record, the flag, the
  remembered camera source and the running main loops.

The class records every outward action (connection writes, pipeline
start, end-of-stream, teardown) in a trace. Its invariant `Valid` says
which sessions can still be capturing. `AtMostOneRunning` follows from it:
at most one session captures without having been told to stop.

## Model

| member | source | states |
|---|---|---|
| Text.Tokens | main.c:561-565 | `strtok` on one delimiter yields only non-empty tokens free of the delimiter |
| Text.TokensOfSplit | main.c:561-565 | the tokens of `a`, a delimiter, then `b` are the tokens of `a` followed by those of `b`: an extra, leading or trailing delimiter drops no neighbouring token |
| Text.TokensOfDelimiters | main.c:561-565 | a text made only of delimiters yields no token |
| Text.TokensOfRun | main.c:561-565 | a non-empty text without the delimiter is a single token |
| Text.TokensOfJoin | main.c:561-565 | tokenising non-empty, delimiter-free tokens joined by the delimiter gives back exactly those tokens |
| Text.Atoi | main.c:571 | `atoi` is 0 for a text holding no digit, and for one whose first character after white space and an optional sign is not a digit ("x1", "-x") |
| Text.AtoiOfPlusDecimal | main.c:571 | a '+' before the digits is read as the number itself |
| Text.AtoiSkipsSpaces | main.c:571 | white space before the number does not change what `atoi` reads |
| Text.AtoiOfDecimalPrefix | main.c:571 | `atoi` reads back the number `"%d"` wrote, stopping at the first character after the digits |
| Text.AtoiOfDecimal | main.c:645 | `atoi` of the `"%d"` text of any integer is that integer |
| Text.Decimal | main.c:645 | `sprintf("%d")`; its meaning is carried by AtoiOfDecimal (`atoi` reads it back) and DecimalInjective |
| Text.DecimalInjective | main.c:645 | distinct integers have distinct `"%d"` texts |
| Text.NaturalDecimalLength | main.c:645 | the digits of n fit in k characters exactly when n < 10^k |
| Query.SplitPair | main.c:567 | a token splits into no key exactly when it is all '='; otherwise the key is non-empty and '='-free |
| Query.SplitPairSkipsLeadingSeparator | main.c:567 | a leading '=' is skipped: `=width=5` splits exactly as `width=5` |
| Query.SplitPairOfRender | main.c:567 | `key=value` splits back into that key and value, whatever '=' the value holds |
| Query.SplitPairWithoutSeparator | main.c:567 | a token without '=' is a key with an empty value |
| Query.PairsOf | main.c:563-567 | each token yields at most one pair, and every key is non-empty and '='-free |
| Query.RequestPairs | main.c:561-567 | every pair of a request has a non-empty, '='-free key |
| Query.RenderAllWellFormed | main.c:561-567 | pairs a client writes render to non-empty tokens free of '&' |
| Query.PairsOfRenderAll | main.c:563-567 | splitting the rendered tokens gives back the pairs |
| Query.RequestPairsOfJoin | main.c:561-567 | the pairs read from `path&k1=v1&...` are exactly the pairs written, in order |
| Query.TrailingPair | main.c:563-567 | the pair the extra loop pass reads from the last value; LoopPairsAsWrittenOfJoin states it as the last value split on '=' once more |
| Query.LoopPairsAsWritten | main.c:563-567 | the pairs the loop as written visits; LoopPairsAsWrittenOfJoin gives them as the written pairs plus that trailing pair |
| Query.LoopPairsAsWrittenOfJoin | main.c:563-567 | as written, the loop visits every written pair, then the last value split on '=' once more |
| Settings.FieldNamed | main.c:569-597 | exactly the six field names are recognised, each naming its own field |
| Settings.Value | main.c:65-75 | a field holds a number exactly when it is one of the four integer fields |
| Settings.Assign | main.c:569-597 | setting a field stores `atoi` of the value for integers and the text for strings; no other field changes |
| Settings.ApplyPair | main.c:569-597 | a recognised key stores its value into its field and changes no other field; an unknown key changes nothing |
| Settings.Defaults | main.c:113-123 | the start-up record; DefaultTexts and DefaultsReport state its six values as a get reports them |
| Settings.ApplyPairs | main.c:563-598 | the update of a set request, pair by pair in request order; ApplyPairsLastWins and ApplyPairsIgnoresUnknownKeys state its effect |
| Settings.ApplyPairsLastWins | main.c:563-598 | after a set request each field holds what the last pair naming it stored, or its old value |
| Settings.ApplyPairsIgnoresUnknownKeys | main.c:563-598 | a request whose keys name no field leaves the record unchanged |
| Settings.SameFieldsSameConfig | main.c:641-678 | two records that report the same texts for all six fields are equal |
| Settings.StartConfig | main.c:209-215 | the record a start request leaves; StartClearsFormat states it |
| Settings.StartClearsFormat | main.c:209-215 | a start has a format only when its own request sets a non-empty one; all other fields are as a set request leaves them |
| Settings.Contribution | main.c:606-615 | the text one pair adds to a get body: `key=value&` for a "**" query of a known key, else nothing; GetBodyEmpty and SetThenGet state it |
| Settings.GetBody | main.c:641-678 | the get body over a request's pairs; GetBodyAppend, GetBodyEmpty and SetThenGet state it |
| Settings.GetBodyAppend | main.c:635-679 | the body for a request is the bodies of its parts, concatenated |
| Settings.GetBodyEmpty | main.c:641-678 | the body is empty exactly when no pair is a "**" query of a known key |
| Settings.SetThenGet | main.c:641-678 | a get of a field after updates reports what the last update naming it stored, or the earlier value |
| Settings.SetThenGetDecimal | main.c:641-646 | a number stored with `"%d"` text is reported back as the same text |
| Settings.DefaultTexts | main.c:113-123 | the defaults report as 640, 480, 30, "video/x-raw", 0 and the empty format |
| Settings.DefaultsReport | main.c:113-123 | right after start-up a get of a field reports its default |
| Settings.SetRequestThenGetRequest | main.c:561-571 | a client that sets an integer field and then gets it reads back the number it sent |
| Settings.ValueBufferHoldsDecimal | main.c:625 | the `"%d"` text of n fits `aValue[10]` exactly when -99999999 <= n <= 999999999 |
| Settings.DefaultVideoTypeOverflowsValueBuffer | main.c:663 | the default media type does not fit `aValue[10]` |
| Settings.SetAsWritten | main.c:563-598 | the set update with the extra loop pass; TrailingPassZeroesField shows it differs from ApplyPairs |
| Settings.GetAsWritten | main.c:635-679 | the get body with the extra loop pass; TrailingPassReportsField shows it differs from GetBody |
| Settings.TrailingPairs | main.c:563-567 | when a request's one value splits as a pair q, the loop visits q after the real pair |
| Settings.TrailingPassZeroesField | main.c:563-571 | as written, `.../setstream&k=width` also sets width to 0; reading each real pair once leaves width alone |
| Settings.GetWithPairValue | main.c:635-647 | as written, a get whose one value is a pair q reports for q as well |
| Settings.TrailingPassReportsField | main.c:635-647 | as written, `.../getstream&k=width=**` reports width; reading each real pair once reports nothing |
| Capture.BackendFromArg | main.c:142-152 | libcamera is selected exactly when the first argument is "libcamerasrc"; otherwise V4L2 |
| Capture.FactoryName | main.c:243-266 | the GStreamer factory of each element; SourceNameSelectsBackend ties it to the command line |
| Capture.SourceNameSelectsBackend | main.c:142-152 | the command-line word that selects a backend is the factory name of that backend's camera source |
| Capture.CreatedElements | main.c:243-272 | source, filter, encoder and sink are always made; the converter exactly for libcamera |
| Capture.Plan | main.c:291-356 | caps carry the record's media type, size and framerate/1; the chain runs source, filter, ..., sink; an encoder exactly when no format is set; a converter exactly when no format is set and the backend is libcamera; the caps format is the record's format, NV12 for libcamera encoding, or none; when encoding, the converter (libcamera only) comes third and the encoder right after it, before the sink |
| Capture.PlanUsesCreatedElements | main.c:291-356 | the chain links only elements made for this backend, each once |
| Capture.OnMessage | main.c:506-528 | end of stream and errors quit the main loop, other messages do not; the watch is always kept |
| Framing.ModeOf | main.c:276-283 | delivery is framed exactly when do_timestamp is non-zero |
| Framing.LittleEndianValueOfBytes | main.c:489-490 | reading back the bytes of a number gives the number |
| Framing.HostValueOfBytes | main.c:489-490 | a reader on the same host reads back the integer written in host byte order |
| Framing.Record | main.c:456 | raw delivery writes the payload alone; framed delivery writes 8 + sizeof(gsize) + size bytes ending in the payload |
| Framing.ParseFramedRecords | main.c:486-491 | a framed stream parses back into exactly the samples written, in order |
| Framing.FramedRecordsInjective | main.c:486-491 | distinct runs of samples give distinct framed streams |
| Framing.RawRecordsArePayloads | main.c:456 | a raw stream is the payloads one after another |
| Framing.RawLosesBoundaries | main.c:456 | one 2-byte sample and two 1-byte samples give the same raw bytes but different framed bytes |
| MediaStreamer.StorePair | main.c:569-597 | the body of the set loop for one pair computes `ApplyPair` |
| MediaStreamer.ReportPair | main.c:641-678 | the body of the get loop for one pair appends that pair's contribution |
| MediaStreamer.ApplyRequest | main.c:561-598 | the set loop, visiting each real pair once, leaves the record `ApplyPairs(c, RequestPairs(uri))` |
| MediaStreamer.BuildBody | main.c:633-679 | the get loop builds `GetBody(c, RequestPairs(uri))` |
| MediaStreamer.Streamer.constructor | main.c:127-152 | the record starts at its defaults, the backend comes from the argument, and nothing runs |
| MediaStreamer.Streamer.SetStream | main.c:549-602 | the record becomes the request's update of it, and the reply is the status line |
| MediaStreamer.Streamer.GetStream | main.c:619-686 | the reply is the get header, then the body for the request; nothing else changes |
| MediaStreamer.Streamer.Start | main.c:222-364 | the stream header is always written first; a running capture ends the call there; otherwise the plan is played in the record's mode, its source remembered and the flag raised |
| MediaStreamer.Streamer.StartStream | main.c:209-218 | the format is cleared, the request applied with its status line, then the start runs on the resulting record |
| MediaStreamer.Streamer.Stop | main.c:534-545 | with a capture running, the flag drops, end-of-stream goes to the remembered source and the status line is the reply; otherwise nothing at all happens |
| MediaStreamer.Streamer.OnBusMessage | main.c:506-528 | end of stream or an error removes the session and tears it down, and never touches the flag; other messages change nothing |
| MediaStreamer.Streamer.NewSample | main.c:444-498 | a sample goes to its session's client in the mode fixed when the session started |
| MediaStreamer.Streamer.AtMostOneRunning | main.c:237-241 | at most one live session is capturing without having been told to stop |
| MediaStreamer.NaturalEndRefusesRestart | main.c:237-241 | after a capture ends by itself, a start writes the status line and header and starts nothing |
| MediaStreamer.StopThenRestart | main.c:536-540 | after a stop, a start plays a new pipeline while the stopped session may still be live |

## Left out

- The GStreamer and web-server calls: element creation, linking, state changes and sample mapping are reduced to the trace effects `Play`, `SendEos`, `Teardown` and `Send`, and to the plan `Capture.Plan`.
- Failures of element creation, linking or state changes: the source only logs them and carries on, so the model has no failure branch. A stricter controller would abandon such a start; the model follows main.c:255-271, 297-347 and 366-373, which only log the failure and carry on.
- Threads: each handler runs to completion. The web server's concurrent threads and the blocking `g_main_loop_run` are not modelled. The teardown's second reading of `aformat`, which may have changed since the start, is not modelled either.
- Signals, `exit_flag`, the port option, the logger and the realtime clock set up in the framed callback (main.c:483-484) are left out; none of them changes what is written.
- Fixed buffer sizes: `auri`/`getstream` (URI_SIZE), `avideotype[50]`, `aformat[20]` and the `strcpy` overflows are not modelled. Only `aValue[10]` is measured (see Findings).
- C `int` width: `atoi` and the integer fields are unbounded integers. Overflow in `atoi` is undefined behaviour in C and is not modelled.
- Query.SplitPair: a token made only of '=' gives a NULL key. The set handler (and so the start handler) passes it to `strcmp` at main.c:569 and crashes; the get handler first compares the value, which is then empty, with "**" (main.c:641) and skips the token. The model skips the token in both.
- Query.RequestPairs: a request with no token after the path ("/setstream", "/setstream&", "/getstream&&") makes the first loop pass call `strtok_r(NULL, "=", &p)` with the save pointer still NULL, which crashes the set, get and start handlers alike; the model reads no pairs from it.
- Query.TrailingPairOf: when the last value is empty or made only of '=', the trailing pass gets a NULL key. The set and start handlers crash at the `strcmp` of main.c:569; the get handler skips it, since the empty value is not "**" (main.c:641). The model visits no trailing pair there.
- The NULL `request_info` branches of the set and get handlers are left out, because the server always passes a request.
- The teardown sequence of main.c:377-436 (READY/NULL states, unlinking, the extra reference on the camera source) is reduced to one `Teardown` effect. Its use of the never-created `videoconvert` on V4L2 is not modelled.
- Framing.Record: timestamps and sizes are written modulo their field width; the C types make every real value fit.
- MediaStreamer.Streamer.SetStream, GetStream: both use the corrected loop (each real pair once). The as-written trailing pass is modelled separately, see Findings.

## Findings

| source | as written | input that shows it | evidently intended | confidence | as-written member | corrected member |
|---|---|---|---|---|---|---|
| main.c:563-598 | after the last '&' token, the loop body runs once more: `strtok_r(NULL, "=", &pacSetValue)` resumes inside the last value and reads it as one more key and value | `/setstream&videotype=width` also sets width to `atoi("")` = 0 | each `key=value` token is applied once | not executed | Settings.TrailingPassZeroesField | MediaStreamer.ApplyRequest |
| main.c:635-679 | the same trailing pass in the get loop | `/getstream&x=width=**` reports `width=640&` although no key asks for width | only pairs whose own value is "**" are reported | not executed | Settings.TrailingPassReportsField | MediaStreamer.BuildBody |
| main.c:625-676 | every reported value is `sprintf`'d into `char aValue[10]` | a get of videotype right after start-up: "video/x-raw" needs 12 bytes; `width=1000000000` needs 11 | the whole value is reported | not executed | Settings.DefaultVideoTypeOverflowsValueBuffer, Settings.ValueBufferHoldsDecimal | Settings.SetThenGetDecimal |
