# nostr-scrobbler, modelled in Dafny

nostr-scrobbler publishes "scrobbles" (kind-2002 Nostr events recording a
played track) and aggregates them. This project models its core:

- **cmus scrobbler** (Go):
  - the `cmus-remote -Q` status parser and the play-duration gate;
  - the Nostr client: relay pool, event creation, broadcast, and the history query that merges relay answers newest-first;
  - the polling loop, which decides each cycle whether to do nothing, suppress a recent duplicate, or publish. The only state it keeps is the key of the last announced track.
- **scrobbler relay** (Go): the per-relay statistics table, the kind-2002 admission rule, the tag lookup, and the `truncate` and `formatFileSize` template helpers.
- **scrobbler UI** (TypeScript): the per-artist play-count aggregation, the newest-first event order, and the recently-played artist list.
- **event converters** (TypeScript):
  - scrobble to audio-track (kind 31337);
  - the Last.fm history importer, with its timestamp de-duplication and paging;
  - the Last.fm browser extension's now-playing encoder;
  - the Spotify plugin's encoder.

Everything outside the program is an input value rather than an action:

- a relay connection, a delivery, a relay's answer to a query;
- the `pgrep` and `cmus-remote` outputs;
- the Last.fm pages;
- the clock (seconds or milliseconds, as each source reads it);
- the uuid.

The modules follow the repository:

| file | module |
|---|---|
| `wrappers.dfy` | `Wrappers`: option, result and outcome types |
| `nostr_event.dfy` | `NostrEvent`: the event record |
| `sorting.dfy` | `Sorting`: newest-first ordering and the truncation used by the merges |
| `go_strings.dfy` | `GoStrings`: Go's `strings.Split`, `SplitN(…, 2)`, `TrimSpace` and `strconv.Atoi` |
| `history.dfy` | `History`: the merge of relay answers shared by both query functions |
| `cmus_status.dfy` | `CmusStatus` (cmus-scrobbler/cmus.go) |
| `cmus_nostr.dfy` | `CmusNostr` (cmus-scrobbler/nostr.go) |
| `cmus_query.dfy` | `CmusQuery` (cmus-scrobbler/query.go) |
| `cmus_scrobbler.dfy` | `CmusScrobbler` (cmus-scrobbler/main.go) |
| `relay_stats.dfy` | `RelayStats` (scrobbler-relay/main.go) |
| `scrobbler_ui.dfy` | `ScrobblerUi` (scrobbler-ui/src/lib/index.ts) |
| `audio_tracks.dfy` | `AudioTracks` (audio-tracks/main.ts) |
| `lastfm_import.dfy` | `LastfmImport` (lastfm-to-nostr/index.ts) |
| `lastfm_extension.dfy` | `LastfmExtension` (lastfm-nostr-extension/background.ts) |
| `spotify.dfy` | `Spotify` (spotify-plugin/index.ts) |

Code that changes state step by step is written as methods with loops:

- `runScrobbler` is the `Scrobbler` class with `Step` and `Run`;
- `connectToRelays`, `AddScrobble`, `parseCmusStatus`, `groupEventsByArtist` and `convertToAudioTrack` are methods too;
- so are the importer's paging loop and the other loops of the code.

Each such method is proved against a function that specifies it. The
properties the program promises are then proved as lemmas about those
functions.

Where the code is wrong, two members model it:

- one keeps the code as written, with a lemma that shows the failing input;
- the other is the corrected definition, which the rest of the model uses.

See "Findings".

## Model

| member | source | states |
|---|---|---|
| GoStrings.Split | cmus-scrobbler/cmus.go:106 | `strings.Split` on newline: at least one piece, and no piece holds the separator |
| GoStrings.JoinSplit | cmus-scrobbler/cmus.go:106 | splitting loses nothing: joining the pieces with the separator gives back the input |
| GoStrings.CutAtSpace | cmus-scrobbler/cmus.go:107-110 | `SplitN(line, " ", 2)`: no cut iff the line holds no space; otherwise before + " " + after is the line, and the part before holds no space |
| GoStrings.CutAtFirstSpace | cmus-scrobbler/cmus.go:107-110 | a key without spaces followed by a space and anything is cut exactly after the key |
| GoStrings.TrimSpace | cmus-scrobbler/cmus.go:111 | the result starts and ends with non-space, and is empty iff the input is all white space |
| GoStrings.TrimSpaceIsSlice | cmus-scrobbler/cmus.go:111 | the trimmed text is a contiguous slice of the input with only white space cut on either side |
| GoStrings.TrimSpaceIdempotent | cmus-scrobbler/cmus.go:111 | trimming twice equals trimming once |
| GoStrings.Atoi | cmus-scrobbler/cmus.go:117 | `strconv.Atoi`: any value it accepts lies in the 64-bit range |
| GoStrings.AtoiItoa | cmus-scrobbler/cmus.go:116-121 | every 64-bit integer written in decimal reads back as itself |
| CmusStatus.LineShapes | cmus-scrobbler/cmus.go:106-127 | a line without a space is skipped; `status`, `position` and `tag <name> <value>` lines carry the trimmed value; a tag line without a second field and any unknown key are ignored |
| CmusStatus.ErrorIsFinal | cmus-scrobbler/cmus.go:117-120 | once a line fails the parse, later lines cannot change the outcome |
| CmusStatus.ApplyLineFails | cmus-scrobbler/cmus.go:116-121 | one line fails iff it is a `position` line whose value is not an integer |
| CmusStatus.ParseFailsIffBadPosition | cmus-scrobbler/cmus.go:99-131 | the whole parse fails iff some line is a bad `position` line |
| CmusStatus.ParsedFields | cmus-scrobbler/cmus.go:113-127 | after a successful parse, Status is the last status value ("" if none), Position the last position value read as an integer (0 if none), and the tags hold exactly the names with a tag line, each mapped to its last value |
| CmusStatus.ParseCmusStatus | cmus-scrobbler/cmus.go:99-131 | the line loop computes the parse of the newline-split text; empty input gives the empty record without error |
| CmusStatus.ParseCmusStatusMeaning | cmus-scrobbler/cmus.go:99-131 | for the text itself: an error iff some bad position line; otherwise last-wins status, position and tag values, missing fields empty or 0 |
| CmusStatus.GetCmusStatus | cmus-scrobbler/cmus.go:31-40 | a failing `cmus-remote` gives its error; otherwise the result is the parse of its output, and fails iff the parse fails |
| CmusStatus.IsCmusRunning | cmus-scrobbler/cmus.go:10-17 | fails iff `pgrep` fails; running iff its output is non-empty |
| CmusStatus.IsCmusPlaying | cmus-scrobbler/cmus.go:19-25 | fails iff the status query fails; playing iff Status is "playing" |
| CmusStatus.WaitForCmus | cmus-scrobbler/cmus.go:73-91 | succeeds iff cmus is running and playing; reports "not running" before "not playing" |
| CmusStatus.GetTags | cmus-scrobbler/cmus.go:42-48 | the copied map equals the parsed tags, and no error |
| CmusStatus.GetCurrentTrack | cmus-scrobbler/cmus.go:50-71 | a status error propagates; a track whose position is at most 30 gives the all-empty record; otherwise artist, track, album and mbid come from the `artist`, `title`, `album` and `mbid` tags, "" when missing |
| CmusStatus.ShortPlayHasNoTitle | cmus-scrobbler/cmus.go:27-29 | a position of 30 or less yields an empty title, so exactly 30 is not long enough |
| CmusNostr.ConnectedRelays | cmus-scrobbler/nostr.go:43-58 | at most as many relays as URLs, and none iff no dial connected |
| CmusNostr.ConnectedRelaysExact | cmus-scrobbler/nostr.go:43-58 | every kept relay was dialled and connected, and every connected URL is kept |
| CmusNostr.NostrClient.constructor | cmus-scrobbler/nostr.go:13-41 | a client holds its key pair and starts with no relays |
| CmusNostr.NostrClient.ConnectToRelays | cmus-scrobbler/nostr.go:43-58 | appends the connected relays in URL order; fails, with the fixed message, iff the pool is then empty |
| CmusNostr.NostrClient.CreateScrobbleEvent | cmus-scrobbler/nostr.go:73-89 | never fails; kind 2002, stamped with the given time, authored by the client's key, content "artist - track", tags artist, track, album, mbid in that order |
| CmusNostr.NostrClient.PublishEvent | cmus-scrobbler/nostr.go:91-101 | offers the event to every relay in pool order, logs each delivery outcome, and returns no error whatever the relays did |
| CmusNostr.NostrClient.QueryRecentScrobbles | cmus-scrobbler/nostr.go:103-137 | never fails; skips failed relays; the result is newest-first, has length min(limit, collected), is a sub-multiset of the collected events, and keeps no event older than a dropped one; when the relays honour the filter, every event is a kind-2002 event of this author |
| CmusNostr.NostrClient.GetLastScrobble | cmus-scrobbler/nostr.go:139-150 | never fails; none iff no relay returned an event; otherwise a collected event at least as new as every collected event |
| CmusQuery.Reachable | cmus-scrobbler/query.go:19-35 | a relay that failed to connect contributes no answer; the others contribute their own |
| CmusQuery.QueryRecentScrobbles | cmus-scrobbler/query.go:12-53 | the same merge over the relays that connected and answered: newest-first, length min(limit, collected), no kept event older than a dropped one, events of the filter, and no error |
| CmusQuery.UnreachableIsSkipped | cmus-scrobbler/query.go:24-35 | an event is collected despite an unreachable relay iff some other reachable relay returned it |
| History.ScrobbleFilter | cmus-scrobbler/query.go:13-17 | the filter admits exactly kind-2002 events of the given author |
| History.CollectedMembers | cmus-scrobbler/query.go:37-39 | an event is collected iff some relay's answer holds it |
| History.CollectedCounts | cmus-scrobbler/query.go:37-39 | answers are concatenated without de-duplication (multiset sum); a failed relay adds nothing |
| History.MergedMatch | cmus-scrobbler/nostr.go:114-134 | if every answer honours the filter, so does every merged event |
| History.NewestOfOne | cmus-scrobbler/nostr.go:139-150 | a merge with limit 1 is empty iff nothing was collected, and otherwise is one collected event at least as new as all |
| Sorting.SortDesc | cmus-scrobbler/query.go:43-45 | the sorted sequence is non-increasing by the key and a permutation of the input |
| Sorting.Take | cmus-scrobbler/query.go:47-50 | the first min(n, length) elements |
| Sorting.TopCutOfSort | cmus-scrobbler/nostr.go:127-134 | sorting then truncating keeps min(limit, n) events, sorted, and none older than a dropped one |
| Sorting.DistinctPermutation | scrobbler-ui/src/lib/index.ts:38 | reordering a duplicate-free sequence keeps it duplicate-free |
| CmusScrobbler.LastMatchWins | cmus-scrobbler/main.go:112-126 | the last tag of at least two elements with the key decides the value |
| CmusScrobbler.NoMatchIsEmpty | cmus-scrobbler/main.go:112-126 | no such tag gives "" |
| CmusScrobbler.GetTrackFromEvent | cmus-scrobbler/main.go:112-126 | the tag loop yields "artist - track" of the last artist and track tags, skipping short tags |
| CmusScrobbler.CreateThenDecode | cmus-scrobbler/main.go:112-126 | decoding an event the client created gives back its content |
| CmusScrobbler.CreateAndPublishScrobble | cmus-scrobbler/main.go:128-141 | builds the client's event for the track, broadcasts it to every relay and reports no error |
| CmusScrobbler.Trace | cmus-scrobbler/main.go:61-109 | one verdict per poll |
| CmusScrobbler.Scrobbler.constructor | cmus-scrobbler/main.go:57 | the loop starts with no announced track |
| CmusScrobbler.Scrobbler.Step | cmus-scrobbler/main.go:61-109 | one iteration: not ready, no track or no title: nothing queried or published and lastTrack kept; same key as lastTrack: nothing queried; lookup error: nothing published, lastTrack kept; the newest remote event strictly younger than 600 s naming the same track suppresses and adopts its content; otherwise publish and adopt the key; a failed publish keeps lastTrack |
| CmusScrobbler.Scrobbler.Run | cmus-scrobbler/main.go:61-109 | running the loop over a sequence of polls produces the verdicts and final lastTrack of the iteration function |
| CmusScrobbler.NothingAfterAnnounce | cmus-scrobbler/main.go:79-80 | once a track is the last announced one, further polls of it never query, never publish and keep lastTrack |
| CmusScrobbler.AtMostOnePublication | cmus-scrobbler/main.go:79-104 | any run of polls of one track publishes it at most once, and not at all when it was already announced |
| CmusScrobbler.ShortPlayNeverPublishes | cmus-scrobbler/main.go:62-77 | a track played 30 seconds or less is never published and leaves lastTrack unchanged |
| CmusScrobbler.StarlightOnce | cmus-scrobbler/main.go:79-104 | a fresh process publishes a track once and skips its second poll two minutes later |
| CmusScrobbler.RecentRemoteSuppresses | cmus-scrobbler/main.go:86-96 | a fresh process that finds the same track scrobbled three minutes ago suppresses it and adopts the remote content |
| RelayStats.Inc | scrobbler-relay/main.go:56-58 | `m[k]++` on a Go map: adds k if missing, raises it by one, leaves other keys alone |
| RelayStats.SumInc | scrobbler-relay/main.go:56-58 | an increment raises the sum of a counter map by exactly one |
| RelayStats.Counted | scrobbler-relay/main.go:54-58 | one scrobble keeps the URL, raises the total by one and increments the artist, song and user counters |
| RelayStats.CountedConsistent | scrobbler-relay/main.go:55-58 | counting keeps total = sum of artist counts = sum of song counts = sum of user counts |
| RelayStats.FreshConsistent | scrobbler-relay/main.go:45-52 | a new entry (zero total, empty maps) satisfies that invariant |
| RelayStats.ScrobbleStats.constructor | scrobbler-relay/main.go:35-39 | the table starts empty and consistent |
| RelayStats.ScrobbleStats.AddScrobble | scrobbler-relay/main.go:41-59 | the first scrobble of a URL creates its fresh entry; the URL's entry is counted once; other entries are unchanged; the invariant is kept |
| RelayStats.RejectEvent | scrobbler-relay/main.go:88-93 | rejects iff the kind is not 2002, with the fixed message, and an empty message otherwise |
| RelayStats.AcceptsCmusScrobbles | scrobbler-relay/main.go:88-93 | every event the cmus client creates is admitted |
| RelayStats.FirstTagValue | scrobbler-relay/main.go:161-168 | the value of the first tag with the key and at least two elements; "" when there is none |
| RelayStats.GetTagValueAsWritten | scrobbler-relay/main.go:161-168 | the lookup as written fails (Go panics) iff an empty tag comes before the first match; otherwise it gives the first-match value |
| RelayStats.EmptyTagPanics | scrobbler-relay/main.go:163 | an empty tag ahead of the artist tag makes the lookup as written fail though the artist is present |
| RelayStats.GetTagValue | scrobbler-relay/main.go:161-168 | the corrected loop returns the first-match value and never fails |
| RelayStats.CountsCmusScrobble | scrobbler-relay/main.go:133-135 | the statistics read back the artist and track of an event the cmus client created |
| RelayStats.Truncate | scrobbler-relay/main.go:286-291 | identity on 10 characters or fewer; otherwise 21 characters: the first 10, "...", the last 8 |
| RelayStats.TruncateIdempotent | scrobbler-relay/main.go:286-291 | truncating twice equals truncating once |
| RelayStats.PowBound | scrobbler-relay/main.go:383 | 1024^7 exceeds the 64-bit range, so the unit index stays within "KMGTPE" |
| RelayStats.FormatFileSize | scrobbler-relay/main.go:373-384 | a size below 1024 is given in bytes; otherwise the divisor is 1024^(exp+1) with 1024^(exp+1) ≤ size < 1024^(exp+2), exp ≤ 5 and the unit the exp-th letter of "KMGTPE" |
| ScrobblerUi.FindTag | scrobbler-ui/src/lib/index.ts:19 | `tags.find(tag => tag[0] === key)`: none iff no tag has the key; otherwise the first such tag |
| ScrobblerUi.ArtistOf | scrobbler-ui/src/lib/index.ts:19-20 | an event is credited only to a non-empty artist |
| ScrobblerUi.FirstArtistTagDecides | scrobbler-ui/src/lib/index.ts:19-20 | an empty first artist tag leaves the event uncredited even when a later artist tag is set |
| ScrobblerUi.ArtistsMembers | scrobbler-ui/src/lib/index.ts:18-36 | the artists are exactly those some event is credited to |
| ScrobblerUi.LastStreamedIsMax | scrobbler-ui/src/lib/index.ts:25-34 | lastStreamedAt is at least 0 and every defined timestamp of the artist, and is 0 or one of them |
| ScrobblerUi.UnseenIsZero | scrobbler-ui/src/lib/index.ts:21-27 | an artist no event names has play count 0 and lastStreamedAt 0 |
| ScrobblerUi.PlayCountsAddUp | scrobbler-ui/src/lib/index.ts:21-28 | the play counts of the rows add up to the number of credited events |
| ScrobblerUi.ReorderedRows | scrobbler-ui/src/lib/index.ts:38 | reordering the rows keeps each row's summary and the set of artists |
| ScrobblerUi.TallyArtists | scrobbler-ui/src/lib/index.ts:16-36 | the `forEach` leaves one entry per credited artist, with its play count and lastStreamedAt, and lists each artist once |
| ScrobblerUi.CountEvent | scrobbler-ui/src/lib/index.ts:20-35 | one event creates the zero entry if needed, increments it and raises lastStreamedAt, keeping the tally exact |
| ScrobblerUi.TallyStep | scrobbler-ui/src/lib/index.ts:20-35 | one event adds its artist (if any) and changes no other artist's summary |
| ScrobblerUi.GroupEventsByArtist | scrobbler-ui/src/lib/index.ts:15-39 | rows sorted by play count, non-increasing; one row per credited artist, with its exact play count and lastStreamedAt; counts add up to the credited events |
| ScrobblerUi.SortedEvents | scrobbler-ui/src/lib/index.ts:43-45 | a permutation of the input, non-increasing by created_at with missing as 0; the input is not changed (values) |
| ScrobblerUi.FirstSeenArtists | scrobbler-ui/src/lib/index.ts:52-58 | the first-seen list holds each credited artist exactly once |
| ScrobblerUi.FirstSeenPrefix | scrobbler-ui/src/lib/index.ts:50-58 | the artists of a prefix are listed first, in the same order |
| ScrobblerUi.RecentlyPlayedArtists | scrobbler-ui/src/lib/index.ts:48-63 | the distinct credited artists of the first 100 events, in first-seen order, each with play count 0 and lastStreamedAt 0 |
| AudioTracks.TagValueAbsent | audio-tracks/main.ts:26 | `tagValue` of a name no tag has is undefined |
| AudioTracks.TagValueFirst | audio-tracks/main.ts:26 | `tagValue` is decided by the first tag with the name |
| AudioTracks.FindRecording | audio-tracks/main.ts:29 | a found tag value starts with "mbid:recording"; the only failure is a TypeError |
| AudioTracks.FindRecordingFirst | audio-tracks/main.ts:29 | a found value is the value of an `i` tag starting with "mbid:recording" that every earlier tag lets the search pass (no `i` tag, or an `i` tag with another value); a TypeError means a bare `i` tag that every earlier tag lets the search pass; nothing found means every tag lets it pass |
| AudioTracks.FindRecordingFacts | audio-tracks/main.ts:29 | the search fails only on an `i` tag without a value and succeeds otherwise; nothing found means no `i` tag with a value starts with "mbid:recording" |
| AudioTracks.MbidFilter | audio-tracks/main.ts:45-49 | the only failure is a TypeError |
| AudioTracks.MbidFilterKeeps | audio-tracks/main.ts:45-49 | a successful filter returns exactly the values of the `i` tags starting with "mbid:", in input order: each kept value comes from such a tag, at strictly increasing positions, and every such tag is kept |
| AudioTracks.MbidFilterFails | audio-tracks/main.ts:45-49 | the filter fails iff some `i` tag has no value; otherwise every kept value starts with "mbid:" |
| AudioTracks.RecordingSegment | audio-tracks/main.ts:30 | for "mbid:recording:<m>" with no colon in m, the d value is m |
| AudioTracks.EmptyRecordingSegment | audio-tracks/main.ts:30 | "mbid:recording:" yields "", not the fresh id |
| AudioTracks.MbidTags | audio-tracks/main.ts:45-49 | one `[i, value]` tag per kept value, in input order |
| AudioTracks.AudioTrackOf | audio-tracks/main.ts:23-58 | fails iff an `i` tag has no value; otherwise kind 31337, created_at the clock in seconds, content "artist - track", tags d, title and i first, then album iff non-empty, artist iff non-empty, the mbid `i` tags, and the cover iff non-empty |
| AudioTracks.ConvertToAudioTrack | audio-tracks/main.ts:23-58 | building and pushing the tags in place computes that track |
| AudioTracks.PushMbidTags | audio-tracks/main.ts:45-49 | the `forEach` appends the mbid tags after the existing ones |
| AudioTracks.NoITags | audio-tracks/main.ts:29-49 | without `i` tags nothing is found and no mbid tag is added |
| AudioTracks.ConvertCmusScrobble | audio-tracks/main.ts:23-58 | the audio track of a cmus-created scrobble: the fresh id as d, the title, an undefined `i` value, album and artist iff non-empty, no mbid and no cover tags |
| LastfmImport.DigitPrefix | lastfm-to-nostr/index.ts:32 | the longest leading run of digits |
| LastfmImport.ParseInt | lastfm-to-nostr/index.ts:32 | `parseInt` of a plain run of digits is its value |
| LastfmImport.ScrobbleToNostrEvent | lastfm-to-nostr/index.ts:30-47 | fails iff the scrobble has no date; otherwise kind 2002, content "name by artist", created_at the parsed `date.uts`, tags `[i, mbid:recording:<mbid>]`, artist, album, track in that order |
| LastfmImport.ExistingScrobbles | lastfm-to-nostr/index.ts:50-57 | the set holds exactly the created_at values of the fetched events |
| LastfmImport.ExistingAreOwnScrobbles | lastfm-to-nostr/index.ts:50-57 | with a relay honouring the filter, each known timestamp belongs to a kind-2002 event of this author |
| LastfmImport.PublishableAppend | lastfm-to-nostr/index.ts:74-85 | one more scrobble extends the published list iff its timestamp is new |
| LastfmImport.FirstEmpty | lastfm-to-nostr/index.ts:72-88 | the first empty page; all earlier pages are non-empty |
| LastfmImport.DatedPrefix | lastfm-to-nostr/index.ts:75 | the scrobbles before the first one without a date |
| LastfmImport.PublishPageAsWritten | lastfm-to-nostr/index.ts:74-85 | the page loop as written fails iff some scrobble has no date, and publishes the new scrobbles ahead of it |
| LastfmImport.ImportAsWritten | lastfm-to-nostr/index.ts:60-91 | the run as written succeeds iff every scrobble read has a date; then it publishes exactly the new ones and asks for pages 1 to the first empty one; otherwise it stops with a TypeError after publishing the new scrobbles ahead of the undated one |
| LastfmImport.NowPlayingAbortsImport | lastfm-to-nostr/index.ts:75 | a now-playing entry at the head of the first page makes the written run fail before the played scrobble behind it |
| LastfmImport.PublishPage | lastfm-to-nostr/index.ts:74-85 | the corrected page loop publishes exactly the new dated scrobbles |
| LastfmImport.Import | lastfm-to-nostr/index.ts:60-91 | the corrected run publishes exactly the new dated scrobbles of all pages read and asks for pages 1 to the first empty one |
| LastfmImport.PublishableConcat | lastfm-to-nostr/index.ts:72-88 | page by page equals all at once |
| LastfmImport.PublishedIffNew | lastfm-to-nostr/index.ts:75-84 | a new scrobble that is read is published, and whatever is published is the event of some new scrobble read |
| LastfmImport.SameTimestampBothPublished | lastfm-to-nostr/index.ts:69-78 | the set is not extended during a run, so two new scrobbles with one timestamp are both published |
| LastfmImport.ImportIdempotent | lastfm-to-nostr/index.ts:69-84 | once the published timestamps are known, the same history publishes nothing more |
| LastfmImport.NothingNew | lastfm-to-nostr/index.ts:78 | a history whose timestamps are all known publishes nothing |
| LastfmExtension.ExtensionEvent | lastfm-nostr-extension/background.ts:73-95 | fails iff fewer than three images; otherwise kind 2002, content "name by artist", created_at floor(ms / 1000), tags r (third image), artist, album, track first, then the recording id iff the mbid is non-empty and the release id iff the album mbid is non-empty, in that order; 4 tags plus one per present id |
| LastfmExtension.ScrobbleToNostrEvent | lastfm-nostr-extension/background.ts:73-95 | building and pushing the tags in place computes that event |
| LastfmExtension.AgreesWithImporter | lastfm-nostr-extension/background.ts:74-80 | the extension and the importer give one track the same content and the same artist, album and track tags |
| Spotify.ConvertToKind2002Event | spotify-plugin/index.ts:115-126 | fails with a TypeError iff the track has no artist or no album image; otherwise kind 2002, content "name - first artist", tags `[i, uri]`, `[source, spotify]`, `[r, first image]`, created_at floor(ms / 1000) |
| Spotify.RelayCountsAnonymously | spotify-plugin/index.ts:119-123 | the relay admits a Spotify scrobble but its statistics find neither an artist nor a track tag in it |

## Left out

- Process and network I/O is not performed; each outcome is an input value:
  - `pgrep`, `cmus-remote` and the websocket connect, publish and query;
  - Last.fm HTTP, Express handlers, Chrome storage and messaging;
  - `time.Sleep` and `Bun.sleep`.
- `Close`, `PrintScrobbles` and `main`/`parseFlags` are left out: they only release connections, log or wire flags.
- Signing and keys (`ev.Sign`, NIP-19 decoding, `GetPublicKey`) are foreign calls. The key pair is an opaque pair of strings and events are unsigned.
- CmusNostr.NostrClient.constructor: `NewNostr` also decodes the key and dials the relays. The dialling is the separate `ConnectToRelays`, and the decoding is not modelled.
- The clock and the uuid are parameters. `time.Since` is `now - createdAt` in whole seconds, and the ten-minute threshold is 600 seconds.
- The sorts are not stable (`sort.Slice`, and the order of `Object.values`), so no tie order is stated:
  - the merges promise a sorted sub-multiset that keeps no event older than one it drops;
  - ScrobblerUi.GroupEventsByArtist promises a sorted order and exact rows, not their order among equal counts.
- RelayStats.ScrobbleStats.AddScrobble: the `RWMutex`, the goroutines that feed it, the LMDB store and the relay wiring are concurrency and storage. Entries are values in a map field, so pointer aliasing between entries is not modelled.
- RelayStats.FormatFileSize: the `%.1f` float output is not modelled; the result holds the size, the divisor, the exponent and the unit letter.
- RelayStats.Truncate: Go slices strings by bytes; the model slices by characters, which agrees on ASCII (hex keys, `npub` strings).
- HTML rendering, backup listing, the Svelte stores and the NDK fetch functions of the UI, the rxjs streams of the extension, and the Lit and popup scripts are front-end plumbing.
- Configuration loading and key generation (cmus-scrobbler/config.go), the ranking scripts (scrobbler-dvm) and the test data generator are not part of this model.
- The NDK `tagValue` helper is not part of this model. It is taken to be a first-match lookup that yields the second element (undefined when the tag has only a key).
- LastfmImport.ParseInt: the model reads an optional sign and the run of decimal digits after it, and NaN (no such digit) is `None`. It does not model JavaScript's skipping of leading white space, its reading of a "0x" prefix as hexadecimal (`parseInt("0x10")` is 16, the model gives `Some(0)`), or the loss of precision of numbers above 2^53, which the model keeps exact.
- LastfmImport.ImportAsWritten, LastfmImport.Import: every publish (lastfm-to-nostr/index.ts:80) and every page fetch (lastfm-to-nostr/index.ts:21-26) is taken to succeed; a rejected publish or a failed fetch, which ends `main` through `main().catch` (lastfm-to-nostr/index.ts:93), is not modelled.
- Limits are natural numbers. A negative `limit` in the Go queries (which would panic in the reslice) is not modelled.
- ScrobblerUi.TallyArtists: the JavaScript object `artistData` inherits keys such as `constructor` from its prototype. An artist with such a name is not modelled; the model is a plain map.
- Values the JavaScript reads from JSON (`scrobble.artist['#text']`, `image[2]`) are typed strings. Only the absence the code itself can hit is modelled: no `date` on the now-playing entry, fewer than three images, no artist or image on Spotify.

## Findings

| source | as written | input that shows it | evidently intended | confidence | as-written member | corrected member |
|---|---|---|---|---|---|---|
| scrobbler-relay/main.go:163 | `tag[0]` is read before `len(tag) > 1` is checked, so an empty tag makes the statistics goroutine panic | tags `[[], ["artist", "Muse"]]`, key `artist` | skip tags shorter than two and return the first match, here "Muse" | not executed | RelayStats.GetTagValueAsWritten, RelayStats.EmptyTagPanics | RelayStats.GetTagValue |
| lastfm-to-nostr/index.ts:75 | every entry of a page is read as `scrobble.date.uts`; Last.fm's now-playing entry has no `date`, so a TypeError ends the import before the played scrobbles behind it | first page `[now-playing entry without date, played scrobble]` | skip undated entries and import every dated one | not executed | LastfmImport.ImportAsWritten, LastfmImport.NowPlayingAbortsImport | LastfmImport.Import |
