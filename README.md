# spotifool core, modelled in Dafny

spotifool is a browser extension that plays Spotify tracks through its own
`<audio>` element. It resolves a track id to encrypted audio files, then
streams one of them into a Media Source Extensions buffer while it obtains
an Encrypted Media Extensions license. This project models the sequential
logic that sits on top of the browser and proves properties of it:

- **Identifier codec** (`b62.dfy`, with the positional-numeral library
  `numerals.dfy`): `b62_to_hex` and `hex_to_b62`. BigInts are modelled as
  `nat`. The round trips are proved for 22-character base-62 ids and
  32-digit lowercase hex ids.
- **Key-system request** (`drm.dfy`): the 45 capability options, their sort,
  the `key_systems` map and the first-success choice of a key system. The
  browser's `requestMediaKeySystemAccess` is an oracle.
- **Format table** (`formats.dfy`, over the JS `Map` model `js_map.dfy`):
  the ordered format-to-codec map, and its demotion after a license error.
- **Track resolution** (`resolver.dfy`): the `files(gid)` async generator.
  It is a `CandidateStream` object whose `Next` resumes a worklist of
  suspended format loops and pending metadata fetches. `Files` is an
  independent reference definition, and the proofs show that the stream
  yields exactly what `Files` says while the table is fixed. The
  metadata, storage-resolve and codec-support checks are oracles in a
  `Catalogue`.
- **Attribute handler** (`player.dfy`): `attributeChangedCallback` as a
  sequential run over the candidates. Per candidate it:
  - creates or reconfigures the source buffer;
  - announces the track;
  - searches for a reader (`FindReader`);
  - runs the read loop (`ReadLoop`);
  - settles the license (`Settle`);
  - dispatches license errors, which demote the format (`DispatchLicense`);
  - ends with `endOfStream()`, or in the outer `catch` with `endOfStream(e)`
    and a rethrow (see "## Findings" for how that call behaves as written);
    on a media source that has closed, `endOfStream` throws instead.

  Before the run, the handler waits for the player's key container; its
  rejection rejects the handler.

  The CDN responses and what the key session and the media source do
  during each attempt are oracles in an `Env`.
- **Playlist cursor** (`playlist.dfy`): the `FancyPlayer` element's
  `switch_track` and `load_tracks`, and the controls that call them.

JS `Map` semantics are modelled in `JsMap`, as a sequence of pairs:
- `set` on an existing key keeps its position;
- `delete` followed by `set` moves the key to the end;
- `new Map(entries)` is a left fold of `set`.

## Model

| member | source | states |
|---|---|---|
| JsMap.FromEntries | src/drm.mjs:39-44 | `new Map(entries)` has distinct keys, in first-occurrence order, and each key maps to its last value |
| JsMap.Set | src/base-player.mjs:172 | `set` keeps the key set and position of a present key, appends an absent key, and keeps keys distinct |
| JsMap.Delete | src/base-player.mjs:171 | `delete` removes the key, leaves every other key's value, and is the identity on an absent key |
| JsMap.DeleteThenSet | src/base-player.mjs:171-172 | deleting then setting the key at position i gives the other entries in order, followed by the key with its new value |
| Numerals.ValueOfDigits | src/b62.mjs:10-13 | the digits produced by repeated mod/div read back as the number |
| Numerals.DigitsInjective | src/b62.mjs:10-13 | distinct numbers have distinct digit strings |
| Numerals.ValueBound | src/b62.mjs:3 | k digits denote less than base^k |
| Numerals.DigitsLength | src/b62.mjs:10-13 | a number below base^k has at most k digits |
| Numerals.ValueLeadingZeros | src/b62.mjs:14 | left-padding with the zero digit keeps the value |
| Numerals.PadDigitsOfValue | src/b62.mjs:14 | printing the value of a digit string and padding to its length gives the string back |
| B62.B62ToHex | src/b62.mjs:1-6 | the result is non-empty and at least `padlen` long; over the alphabet, it is hex with the input's base-62 value and has no leading zero beyond the padding |
| B62.DigitValues | src/b62.mjs:2 | one digit per character: -1 exactly for a character outside the alphabet, otherwise a digit below 62 that the alphabet spells as that character |
| B62.ReduceIsValue | src/b62.mjs:2-3 | the reverse/reduce sum of 62^i times digit i is the big-endian base-62 value |
| B62.NatToHex | src/b62.mjs:5 | `toString(16)` of a non-negative number is non-empty lowercase hex with no leading zero |
| B62.BigIntToHex | src/b62.mjs:5 | `toString(16)` of a BigInt is non-empty lowercase hex, with a `-` in front when it is negative |
| B62.NatToHexValue | src/b62.mjs:5 | `toString(16)` is lowercase hex of the value with no leading zero |
| B62.TrimEnd | src/b62.mjs:8 | the result is the longest prefix not ending in whitespace, and only whitespace is dropped |
| B62.ParseHex | src/b62.mjs:8 | `BigInt('0x'+t)` succeeds exactly when t, minus trailing whitespace, is one or more hex digits of either case; for lowercase hex it is the value |
| B62.LowerHexIdentity | src/b62.mjs:8 | lowercase hex is unchanged by trimming and case folding |
| B62.HexToB62Result | src/b62.mjs:7-15 | the result exists exactly when the parse succeeds; it is over the alphabet, at least `padlen` long and has the parsed value; a result longer than `padlen` has no leading zero; value 0 gives `padlen` zeros |
| B62.HexToB62 | src/b62.mjs:7-15 | the mod/div loop computes `HexToB62Result` |
| B62.PaddedDigits | src/b62.mjs:14 | padded base-62 digits stay over the alphabet and keep the value |
| B62.HexFitsB62 | src/b62.mjs:1-15 | a value below 16^32 has at most 22 base-62 digits |
| B62.RoundTripFromB62 | src/b62.mjs:1-15 | every 22-character id over the alphabet survives `hex_to_b62(b62_to_hex(s))` |
| B62.RoundTripFromHex | src/b62.mjs:1-15 | every 32-digit lowercase hex id survives `b62_to_hex(hex_to_b62(h))` |
| Drm.ClearIndices | src/drm.mjs:24 | exactly the content-type indices whose bit is clear in the mask, in increasing order |
| Drm.Capabilities | src/drm.mjs:24-26 | one capability per clear bit, in content-type order, each with the given robustness |
| Drm.CombinationCountIs | src/drm.mjs:17 | `robustnesses.length * (2^N - 1)` is 45 |
| Drm.MakeOption | src/drm.mjs:18-26 | each capability of option i is for one of the four content types, at robustness `i % 3` |
| Drm.Generated | src/drm.mjs:18-33 | the `Array.from` mapping gives option i at index i |
| Drm.GeneratedOptions | src/drm.mjs:17-33 | exactly 45 options, option i at index i |
| Drm.OptionShape | src/drm.mjs:19-26 | option i is non-empty, uses robustness `i % 3` on every capability and holds the content types with a clear bit in `i div 3`, in order |
| Drm.InContentSet | src/drm.mjs:24 | a content type is in option i exactly when its bit in `i div 3` is clear |
| Drm.OptionsDistinct | src/drm.mjs:18-26 | two different indices give different content sets or different robustness |
| Drm.ExclusionMask | src/drm.mjs:20-24 | for any set of content types, a mask below 16 whose set bits are exactly the types not in the set |
| Drm.OptionForChoice | src/drm.mjs:18-26 | for every non-empty set of content types and every robustness, option `3 * mask + r` (below 45) asks for exactly that set, its first capability at that robustness |
| Drm.OptionsCover | src/drm.mjs:18-26 | every (non-empty subset, robustness) pair is asked for by one of the 45 options |
| Drm.LabelsDistinct | src/drm.mjs:22 | the labels `'drmsuxx' + i` are distinct |
| Drm.RobustnessRank | src/drm.mjs:36 | `indexOf` is the position in `robustnesses`, and -1 exactly when the value is absent |
| Drm.CompareMeaning | src/drm.mjs:34-37 | the comparator is at most 0 exactly when a may precede b: more capabilities, or as many and a robustness no later |
| Drm.SortOptions | src/drm.mjs:34-37 | the in-place sort leaves a permutation in which capability count never increases and, within a count, robustness rank never decreases |
| Drm.BuildOptions | src/drm.mjs:18-37 | the options array is a sorted permutation of the 45 generated options |
| Drm.KeySystems | src/drm.mjs:39-44 | the `key_systems` map has distinct keys, and each maps to its last value among the entries |
| Drm.KeySystemsContents | src/drm.mjs:39-44 | the map holds fairplay, widevine, then playready mapped to `com.microsoft.playready`, because the repeated key keeps its place and takes the later value |
| Drm.FirstGranted | src/drm.mjs:46-53 | nothing exactly when every request fails; otherwise the first granted key system in map order, tagged with its nice name |
| Drm.FirstGrantedAt | src/drm.mjs:46-53 | if entry k is granted and every earlier entry is denied, entry k is chosen |
| Drm.SelectKeySystem | src/drm.mjs:46-53 | the loop with its `break` computes `FirstGranted` |
| Formats.InitialFormatsMap | src/base-player.mjs:7-14 | the six format tags are distinct, so the map holds the entries in quality order |
| Formats.FromDistinct | src/base-player.mjs:7-14 | a map built from entries with distinct keys keeps them as listed |
| Formats.Demoted | src/base-player.mjs:171-172 | after `delete` then `set`, the format maps to the codec; on a map, keys stay distinct, the format is last, and every other format keeps its codec |
| Formats.DemotedMovesToEnd | src/base-player.mjs:171-172 | demoting entry i leaves the others in order and puts it last with its codec |
| Formats.DemotedKeys | src/base-player.mjs:171-172 | demoting a present format keeps the key set, the size and every codec, and puts the format last |
| Formats.DemotedIdempotent | src/base-player.mjs:167-173 | demoting twice is the same as demoting once |
| Formats.FormatTable.constructor | src/base-player.mjs:7-14 | the table starts as the six entries, with distinct keys |
| Formats.FormatTable.Demote | src/base-player.mjs:171-172 | `delete` then `set` on the table is `Demoted`, and keys stay distinct |
| Resolver.WellFormed | src/base-player.mjs:35-37 | every pair kept comes from an element whose `file_id` and `format` are both strings |
| Resolver.LastFileId | src/base-player.mjs:34-38 | the file id of the last well-formed element with this format, or nothing exactly when there is none |
| Resolver.FileIds | src/base-player.mjs:34-38 | `file_ids` has distinct keys, and `file_ids.get(format)` is the last string `file_id` of that format; elements with a non-string field are ignored |
| Resolver.OwnCandidate | src/base-player.mjs:42-56 | a format yields a candidate exactly when the track has a non-empty file id for it, its codec is supported and storage-resolve succeeds; the candidate carries the track's gid, the format, the codec and the URLs storage-resolve returned for that file id |
| Resolver.OwnCandidates | src/base-player.mjs:41-57 | the format loop yields at most one candidate per remaining table entry, each for this track, with a supported codec and a (format, codec) pair of the table |
| Resolver.OwnCandidatesSplit | src/base-player.mjs:41-57 | a track's candidates follow table order: those of a prefix of the table come first |
| Resolver.DemotedOrder | src/base-player.mjs:41-57 | after a demotion, a track's candidates are those of the other formats in their old order, then the demoted format's |
| Resolver.AltGids | src/base-player.mjs:60 | a gid is kept exactly when some alternative has it as a string `gid`, and there are at most as many as there are alternatives |
| Resolver.AltGidsAppend | src/base-player.mjs:60 | the filter keeps alternative order: it distributes over concatenation |
| Resolver.Files | src/base-player.mjs:23-64 | every candidate of `files(gid)`, its own or an alternative's, has a supported codec and a (format, codec) pair of the table |
| Resolver.AltFiles | src/base-player.mjs:59-61 | every candidate yielded for the alternatives has a supported codec and a (format, codec) pair of the table |
| Resolver.NextSpec | src/base-player.mjs:23-64 | one `next()` of the generator: nothing with an empty worklist once it is exhausted, otherwise a candidate and a strictly smaller worklist |
| Resolver.NextOfFetch | src/base-player.mjs:24-41 | reaching a track fetches its metadata and snapshots the table as it is at that moment |
| Resolver.NextPending | src/base-player.mjs:23-64 | with the table fixed, `next()` yields the first pending candidate and leaves the rest pending, and yields nothing exactly when nothing is pending |
| Resolver.StartPending | src/base-player.mjs:23-64 | a fresh generator has exactly `Files(gid)` pending: own formats in table order, then alternatives depth first, left to right |
| Resolver.SnapshotKept | src/base-player.mjs:41 | while a track's format loop has a candidate left, the next candidate does not depend on the current table |
| Resolver.NextCoherent | src/base-player.mjs:41-57 | every snapshot stays consistent with the table, and every candidate's format maps to its codec in the table |
| Resolver.CoherentSameGets | src/base-player.mjs:171-172 | consistency survives any table with the same codec for every format, such as a demoted one |
| Resolver.CandidateStream.constructor | src/base-player.mjs:23 | a new generator has only the track's metadata fetch pending |
| Resolver.CandidateStream.Next | src/base-player.mjs:23-64 | `next()` resumes the generator with the current table and computes `NextSpec` |
| Player.FindReaderSpec | src/base-player.mjs:187-193 | the body of the first `ok` response after non-`ok` ones; a rejection when a fetch rejects after non-`ok` ones; nothing exactly when no response is `ok` |
| Player.FindReader | src/base-player.mjs:187-194 | the URL loop with its `break` computes `FindReaderSpec` |
| Player.PumpFrom | src/base-player.mjs:198-203 | the chunks appended are a prefix of the body, in read order. Without an abort: all of them, completing exactly when the stream ends `done`. With an abort seen at read a: exactly the first a. A read rejects only after all chunks, with no abort seen before |
| Player.ReadLoop | src/base-player.mjs:197-203 | the `while (1)` loop computes `Pump` |
| Player.Settle | src/base-player.mjs:157-166 | `licensed` settles at the first event that has at least one key, all usable, or is a license error: rejected exactly when that event is the error; it stays pending exactly when no event settles it |
| Player.LicenseDemotes | src/base-player.mjs:167-173 | however many license errors arrive, the format is demoted once, and not at all without one |
| Player.DispatchLicense | src/base-player.mjs:167-173 | running the listener on each event demotes as `AfterLicense` says and keeps the table a map |
| Player.AttemptSpec | src/base-player.mjs:137-214 | an attempt first creates (attempt 0) or reconfigures the buffer, then announces the candidate, then only appends; with consistent input the table keeps its size, keys and codecs |
| Player.TryCandidate | src/base-player.mjs:137-214 | the loop body computes `AttemptSpec` and changes the table only by demotion |
| Player.AttemptSucceeds | src/base-player.mjs:198-209 | an attempt returns exactly when a reader was found, the read loop ended by `break`, the license was granted and the media source is still open; the whole body was then appended and the stream was `done` |
| Player.AttemptAppends | src/base-player.mjs:187-203 | nothing is appended without a reader; otherwise a prefix of the body, in order |
| Player.AttemptDemotes | src/base-player.mjs:167-194 | the format is demoted exactly when a reader was found and a license error arrived |
| Player.AttemptFails | src/base-player.mjs:194-214 | once the media source has closed, the loop is left after a failed read, a denied license, a granted license (its `endOfStream()` throws) or a rejected fetch; on an open source a failed read or denied license continues and a rejected fetch escapes; no `ok` response continues; an unsettled license waits forever |
| Player.RunContinue | src/base-player.mjs:138-215 | after an attempt that continues, the run goes on from the generator's next state with the updated table |
| Player.RunFinalises | src/base-player.mjs:136-220 | with the intended outer `catch`, `endOfStream` is called once, as the last action: without argument exactly when the run returns, with the thrown error when it rejects on an open source; a stalled run never calls it, and a run whose source closed rejects with the `InvalidStateError` of `endOfStream` and ends nothing; over the modelled responses the run rejects only with the exhaustion error, a CDN fetch rejection or that `InvalidStateError` |
| Player.RunAsWritten | src/base-player.mjs:138-219 | with the outer `catch` as written, a run that rejects always rejects with a `TypeError` and never calls `endOfStream` |
| Player.RunAsWrittenCatch | src/base-player.mjs:217-219 | the run as written is the intended run, except that a rejecting run rejects with a `TypeError`, and on an open source also drops its final `endOfStream(e)` |
| Player.UnknownTrackAsWritten | src/base-player.mjs:138-219 | for a track whose metadata cannot be fetched, the intended run ends the stream with the error and rethrows it, while the run as written leaves the stream open and rejects with a `TypeError` |
| Player.Run | src/base-player.mjs:138-216 | however the run goes, the format table keeps distinct keys, its size and every format's codec |
| Player.Gid | src/base-player.mjs:116 | a 22-character songid becomes at least 32 characters; over the base-62 alphabet, that is hex with the id's value; any other songid is used unchanged |
| Player.Callback | src/base-player.mjs:113-134 | an unchanged attribute does nothing; a removed one throws a `TypeError` before doing anything; a rejected key container rejects the handler before the stream is touched; the format table keeps distinct keys and every codec |
| Player.CallbackFinalises | src/base-player.mjs:113-220 | the call is ignored exactly for an unchanged attribute, throws `TypeError` exactly for a removed one, rejects with no action exactly when the key container rejected, and otherwise ends as `RunFinalises` says, with the intended outer `catch` and over the modelled responses |
| Player.NotifiedPrefix | src/base-player.mjs:138-154 | without license errors the table never changes, and the candidates announced are, in order, a prefix of those pending |
| Player.CallbackTriesFiles | src/base-player.mjs:113-154 | without license errors, the handler announces, in order, a prefix of `files(gid)`, where a 22-character songid is first converted by `b62_to_hex` |
| Player.NoReaderTriesAll | src/base-player.mjs:138-216 | when no CDN response is `ok`, every attempt moves on: the run announces exactly the pending candidates, in order, keeps the table and ends with the exhaustion error |
| Player.CallbackTriesAllFiles | src/base-player.mjs:113-216 | when no CDN response is `ok`, the handler announces every candidate of `files(gid)`, in order, then rejects with the exhaustion error |
| Player.AttributeChangedCallback | src/base-player.mjs:113-221 | the handler computes `Callback`, with the intended outer `catch`, on the shared format table and keeps it a map |
| Playlist.Switched | src/fancy-player.mjs:153-174 | `switch_track` never changes the track list |
| Playlist.SwitchedRestart | src/fancy-player.mjs:155-158 | a step back more than 10 seconds in rewinds to 0 and changes nothing else |
| Playlist.SwitchedMoves | src/fancy-player.mjs:159-167 | otherwise a step below 0 clamps to 0; a step at or past the end wraps to 0 and pauses; any other step moves by `dir`; the playback position is kept |
| Playlist.SwitchedInRange | src/fancy-player.mjs:153-167 | outside a restart, the new position is an index of a non-empty list, and 0 with the attribute untouched for an empty one |
| Playlist.SwitchedKeepsRange | src/fancy-player.mjs:153-174 | the cursor stays an index of the list, or 0 on an empty list |
| Playlist.SwitchedSongid | src/fancy-player.mjs:170-173 | the attribute changes only to the entry under the new position, only when it is a non-empty string, and always then outside a restart |
| Playlist.AdvanceVisits | src/fancy-player.mjs:153-167 | from the first track, steps forward visit the tracks in order without touching play state, and a step past the last wraps to the first and pauses |
| Playlist.TrackIds | src/fancy-player.mjs:192 | the kept ids are exactly the string ids of the items, no more than the items |
| Playlist.TrackIdsAppend | src/fancy-player.mjs:192 | the filter keeps item order: it distributes over concatenation |
| Playlist.Loaded | src/fancy-player.mjs:175-209 | a failed request changes nothing; a playlist page replaces the list with its string ids; any other page keeps the list; both go back to position 0 and keep the playback position |
| Playlist.LoadedPlaylist | src/fancy-player.mjs:175-209 | after a playlist loads: the list is its string ids and the position is 0. The first id is requested when non-empty. An empty playlist pauses the player. The playback position is untouched |
| Playlist.LoadedOther | src/fancy-player.mjs:195-208 | any other page keeps the list and goes back to its first track |
| Playlist.FancyPlayer.constructor | src/fancy-player.mjs:39-41 | the cursor starts at 0 on an empty list |
| Playlist.FancyPlayer.SwitchTrack | src/fancy-player.mjs:153-174 | the method computes `Switched` and keeps the cursor in range |
| Playlist.FancyPlayer.LoadTracks | src/fancy-player.mjs:175-209 | the method computes `Loaded`, reporting failure exactly when the playlist request fails |
| Playlist.FancyPlayer.OnControl | src/fancy-player.mjs:126-139 | 'ended', the next button and the next-track action step by +1; the previous button and action by -1 |

## Findings

| source | as written | input that shows it | evidently intended | confidence | as-written member | corrected member |
|---|---|---|---|---|---|---|
| src/base-player.mjs:218 | `ms.endOfStream(e)` passes the caught Error object. The argument must be an `EndOfStreamError` value ("network" or "decode"), so converting it throws a `TypeError` before the call acts, and `throw e` is never reached | a songid whose metadata fetch fails: the generator yields nothing and the `Error('Playback failed …')` reaches the catch | mark the media source as failed with an `EndOfStreamError` value, then rethrow `e` | not executed; follows from the argument type of `endOfStream` in the Media Source Extensions specification | Player.UnknownTrackAsWritten | Player.RunFinalises |

## Left out

- Network I/O is left out. Every fetch is an oracle: metadata, storage-resolve, the CDN, the license POST, the certificate and the playlist API. These are `Catalogue`, `Env` and `Page`.
- The Media Source and Encrypted Media Extensions objects (`MediaSource`, `SourceBuffer`, `MediaKeys`, key sessions) appear only as the actions they receive and the outcomes they report.
  - `requestMediaKeySystemAccess` is the `request` oracle.
  - `codec_supported` (src/base-player.mjs:16-21) is `Catalogue.supported`, because it queries the platform.
- Concurrency is reduced to a sequential order; interleavings are not modelled.
  - The event-listener wiring, the `AbortController` chaining and the `updateend` waits are not modelled.
  - Each attempt's license events are processed before the generator resumes.
  - Events that arrive after an attempt has ended are not modelled.
  - The abort of the outer signal is a per-attempt flag. It is not forced to stay set in later attempts, and its effect on the generator's own fetches is folded into the catalogue oracles.
- Player.AttributeChangedCallback: `addSourceBuffer`, `changeType`, `remove`, `appendBuffer`, `endOfStream()` and the intended `endOfStream` with an error value are taken never to throw on an open media source. The buffer calls that start an attempt are taken to find the source open: a close is entered only through the attempt's abort flag, and the model leaves the loop at the end of that attempt. The call `endOfStream(e)` as written always throws (see "## Findings"). License events are consulted only once a reader has been found. Before that, no media data has reached the element, so no key request can start.
- Player.RunFinalises: when the generator runs out, the media source is taken to be open, so the exhaustion error ends the stream. The abort flag is read only by an attempt that found a reader or had a fetch rejected. A close seen by an attempt with no `ok` response, which moves on, is not carried to the end of the run, where `endOfStream` would throw.
- Player.RunFinalises: the lemma is about `Run`, the run with the intended outer `catch`. As written, every rejecting run rejects with a `TypeError` and leaves the stream open; Player.RunAsWritten and Player.RunAsWrittenCatch state that.
- Player.CallbackFinalises: it states the intended outer `catch`, so as written a changed songid also rejects with a `TypeError` whenever its run fails. A rejection of `await this.mediaKeys` (src/base-player.mjs:134) is the `KeysRejected` outcome, with no action. Creating, attaching and opening the `MediaSource` before it (src/base-player.mjs:119-131) is not an action of the model.
- Strings are sequences of Unicode scalar values, while JS strings are UTF-16 code units. For text outside the Basic Multilingual Plane, `t.split('')` (src/b62.mjs:2) and `songid.length` (src/base-player.mjs:116) count differently: the JS splits a surrogate pair into two characters, and Player.Gid counts it as one. Every id of the base-62 alphabet lies inside that plane, so the codec's contracts are unaffected.
- Player.RunFinalises: two `TypeError` paths of the source are not among the modelled responses. A storage-resolve answer of JSON `null` makes `metadata.file.cdnurl` throw (src/base-player.mjs:187). An `ok` response with a null body, such as a 204, makes `res.body.getReader()` throw (src/base-player.mjs:190). Both reach the outer catch (src/base-player.mjs:217-219), where `endOfStream(e)` itself throws a `TypeError`, so the handler rejects with that `TypeError`. The `Catalogue` storage oracle answers with a URL list or fails, and every `ok` response of `Env` has a body.
- Resolver.Files: a `fuel` bound limits how deep alternatives are followed. The source has no cycle guard and no depth bound, and at fuel 0 a track yields nothing.
- The identifier codec's contracts are conditional. B62.B62ToHex is modelled on every string of Unicode scalar values, with digit -1 for characters outside the alphabet. Its value and round-trip contracts are stated only for strings over the alphabet.
- Drm.SortOptions requires every option to have a capability, because the comparator reads `audioCapabilities[0]`. Every generated option has one (Drm.OptionShape). The stability of the source's sort is not stated.
- Drm.SelectKeySystem: the access object and the `nice_name` property are reduced to the pair (key system, nice name). The system's configuration, which `codec_supported` reads, is not modelled.
- `MediaMetadataExt` and `MetadataEvent` (src/base-player.mjs:66-90) are left out: the notification at src/base-player.mjs:154 is the `Notify` action carrying the candidate.
- The debug logging listeners (src/base-player.mjs:101-110) are left out.
- src/license.mjs and src/auth.mjs are not part of this model. Their effects enter as license events and as the oracles.
- The visualiser, the FancyPlayer user interface, the media-session metadata handlers, navigation interception and URL pattern matching are left out. Which page was loaded is the `Page` input of `LoadTracks`.
- content.js and src/index.mjs (page bootstrap) are not part of this model.
- Playlist.FancyPlayer.constructor: the constructor's call of `load_tracks` is a separate `LoadTracks` call, and the player starts paused at time 0.
