/** The converter from scrobble events (kind 2002) to audio-track events
    (kind 31337). JavaScript's `undefined` appears as `None`: in a tag
    cell, and as the text "undefined" when it is interpolated into a
    template string. */
module AudioTracks {
  import opened Wrappers
  import opened GoStrings

  const AudioTrackKind: int := 31337

  /** A scrobble event as NDK hands it over. */
  datatype ScrobbleIn = ScrobbleIn(tags: seq<seq<string>>)

  /** The converted event. Its tag cells may hold `undefined`. */
  datatype AudioTrack = AudioTrack(kind: int, content: string, createdAt: int, tags: seq<seq<Option<string>>>)

  /** `NDKEvent.tagValue(name)`, taken to be a first-match lookup: the second
      element of the first tag named `name`, undefined when there is no such
      tag or it has no second element. */
  function TagValue(tags: seq<seq<string>>, name: string): Option<string>
    decreases |tags|
  {
    if tags == [] then None
    else if Named(tags[0], name) then (if |tags[0]| > 1 then Some(tags[0][1]) else None)
    else TagValue(tags[1..], name)
  }

  /** Without a tag named `name` the value is undefined. */
  lemma {:induction false} TagValueAbsent(tags: seq<seq<string>>, name: string)
    requires forall k :: 0 <= k < |tags| ==> !Named(tags[k], name)
    ensures TagValue(tags, name).None?
    decreases |tags|
  {
    if tags != [] {
      assert forall k :: 0 <= k < |tags[1..]| ==> tags[1..][k] == tags[k + 1];
      TagValueAbsent(tags[1..], name);
    }
  }

  /** The first tag named `name` decides the value. */
  lemma {:induction false} TagValueFirst(tags: seq<seq<string>>, name: string, k: nat)
    requires k < |tags| && Named(tags[k], name)
    requires forall j :: 0 <= j < k ==> !Named(tags[j], name)
    ensures TagValue(tags, name) == (if |tags[k]| > 1 then Some(tags[k][1]) else None)
    decreases k
  {
    if k > 0 {
      assert forall j :: 0 <= j < k - 1 ==> tags[1..][j] == tags[j + 1];
      assert tags[1..][k - 1] == tags[k];
      TagValueFirst(tags[1..], name, k - 1);
    }
  }

  predicate Named(t: seq<string>, name: string) { |t| > 0 && t[0] == name }

  /** Template-string interpolation of a possibly undefined value. */
  function Text(v: Option<string>): string {
    match v case None => "undefined" case Some(s) => s
  }

  /** JavaScript truthiness of a possibly undefined string. */
  predicate Truthy(v: Option<string>) { v.Some? && v.value != "" }

  predicate StartsWith(s: string, prefix: string) { |prefix| <= |s| && s[..|prefix|] == prefix }

  /** An `i` tag without a value: `tag[1].startsWith(…)` throws a TypeError on it. */
  predicate BareI(t: seq<string>) { |t| == 1 && t[0] == "i" }

  predicate HasBareI(tags: seq<seq<string>>) { exists k :: 0 <= k < |tags| && BareI(tags[k]) }

  /** `tags.find(tag => tag[0] === 'i' && tag[1].startsWith('mbid:recording'))`:
      the value of the first such tag, or a TypeError when a bare `i` tag comes first. */
  function FindRecording(tags: seq<seq<string>>): (r: Result<Option<string>, string>)
    ensures r.Err? ==> r.error == "TypeError"
    ensures r.Ok? && r.value.Some? ==> StartsWith(r.value.value, "mbid:recording")
    decreases |tags|
  {
    if tags == [] then Ok(None)
    else if Named(tags[0], "i") then
      if |tags[0]| < 2 then Err("TypeError")
      else if StartsWith(tags[0][1], "mbid:recording") then Ok(Some(tags[0][1]))
      else FindRecording(tags[1..])
    else FindRecording(tags[1..])
  }

  /** The lookup throws only on a bare `i` tag, and finds nothing only when no
      `i` tag holds a recording reference. */
  lemma {:induction false} FindRecordingFacts(tags: seq<seq<string>>)
    ensures FindRecording(tags).Err? ==> HasBareI(tags)
    ensures !HasBareI(tags) ==> FindRecording(tags).Ok?
    ensures FindRecording(tags) == Ok(None) ==>
              forall k :: 0 <= k < |tags| && |tags[k]| > 1 && tags[k][0] == "i" ==> !StartsWith(tags[k][1], "mbid:recording")
    decreases |tags|
  {
    if tags != [] {
      FindRecordingFacts(tags[1..]);
      assert forall k :: 1 <= k < |tags| ==> tags[1..][k - 1] == tags[k];
    }
  }

  /** A tag the lookup stops at: an `i` tag whose value is a recording reference. */
  predicate RecordingTag(t: seq<string>) { |t| > 1 && t[0] == "i" && StartsWith(t[1], "mbid:recording") }

  /** A tag the lookup passes over without throwing. */
  predicate Passed(t: seq<string>) { !Named(t, "i") || (|t| > 1 && !StartsWith(t[1], "mbid:recording")) }

  /** The lookup's outcome is decided by the first tag it does not pass over:
      a recording reference is the value found, a bare `i` tag the TypeError,
      and when there is no such tag nothing is found. */
  lemma {:induction false} FindRecordingFirst(tags: seq<seq<string>>)
    ensures FindRecording(tags).Ok? && FindRecording(tags).value.Some? ==>
              exists k :: 0 <= k < |tags| && RecordingTag(tags[k]) && tags[k][1] == FindRecording(tags).value.value &&
                forall j :: 0 <= j < k ==> Passed(tags[j])
    ensures FindRecording(tags).Err? ==>
              exists k :: 0 <= k < |tags| && BareI(tags[k]) && forall j :: 0 <= j < k ==> Passed(tags[j])
    ensures FindRecording(tags) == Ok(None) ==> forall k :: 0 <= k < |tags| ==> Passed(tags[k])
    decreases |tags|
  {
    if tags != [] && Passed(tags[0]) {
      var rest := tags[1..];
      FindRecordingFirst(rest);
      assert FindRecording(tags) == FindRecording(rest);
      assert forall k :: 1 <= k < |tags| ==> rest[k - 1] == tags[k];
      if FindRecording(rest).Ok? && FindRecording(rest).value.Some? {
        var k :| 0 <= k < |rest| && RecordingTag(rest[k]) && rest[k][1] == FindRecording(rest).value.value &&
                 forall j :: 0 <= j < k ==> Passed(rest[j]);
        assert forall j :: 0 <= j < k + 1 ==> Passed(tags[j]) by {
          forall j | 0 <= j < k + 1 ensures Passed(tags[j]) {
            if j > 0 { assert tags[j] == rest[j - 1]; }
          }
        }
        assert RecordingTag(tags[k + 1]) && tags[k + 1][1] == FindRecording(tags).value.value;
      } else if FindRecording(rest).Err? {
        var k :| 0 <= k < |rest| && BareI(rest[k]) && forall j :: 0 <= j < k ==> Passed(rest[j]);
        assert forall j :: 0 <= j < k + 1 ==> Passed(tags[j]) by {
          forall j | 0 <= j < k + 1 ensures Passed(tags[j]) {
            if j > 0 { assert tags[j] == rest[j - 1]; }
          }
        }
        assert BareI(tags[k + 1]);
      }
    }
  }

  /** `tag[1]?.split(':')[2] ?? uuid()`: the third `:`-separated segment of the
      recording reference, the fresh id when there is none. */
  function RecordingId(found: Option<string>, freshId: string): string {
    match found
    case None => freshId
    case Some(v) => var parts := Split(v, ':'); if |parts| >= 3 then parts[2] else freshId
  }

  /** `tags.filter(tag => tag[0] === 'i' && tag[1].startsWith('mbid:'))`,
      mapped to the values: a TypeError when some `i` tag has no value. */
  function MbidFilter(tags: seq<seq<string>>): (r: Result<seq<string>, string>)
    ensures r.Err? ==> r.error == "TypeError"
    decreases |tags|
  {
    if tags == [] then Ok([])
    else
      var init := tags[..|tags| - 1];
      var t := tags[|tags| - 1];
      match MbidFilter(init)
      case Err(e) => Err(e)
      case Ok(vs) =>
        if BareI(t) then Err("TypeError")
        else if |t| > 1 && t[0] == "i" && StartsWith(t[1], "mbid:") then Ok(vs + [t[1]])
        else Ok(vs)
  }

  /** A tag the filter keeps: an `i` tag whose value is a MusicBrainz reference. */
  predicate MbidTag(t: seq<string>) { |t| > 1 && t[0] == "i" && StartsWith(t[1], "mbid:") }

  /** What the filter keeps is exactly the values of the MusicBrainz `i` tags, in
      input order: `idx` lists their positions, strictly increasing, and every
      such tag's position is listed. */
  lemma {:induction false} MbidFilterKeeps(tags: seq<seq<string>>) returns (idx: seq<nat>)
    requires MbidFilter(tags).Ok?
    ensures |idx| == |MbidFilter(tags).value|
    ensures forall i :: 0 <= i < |idx| ==>
              idx[i] < |tags| && MbidTag(tags[idx[i]]) && MbidFilter(tags).value[i] == tags[idx[i]][1]
    ensures forall i, j :: 0 <= i < j < |idx| ==> idx[i] < idx[j]
    ensures forall k :: 0 <= k < |tags| && MbidTag(tags[k]) ==> k in idx
    decreases |tags|
  {
    if tags == [] {
      idx := [];
    } else {
      var init := tags[..|tags| - 1];
      var t := tags[|tags| - 1];
      assert forall k :: 0 <= k < |init| ==> init[k] == tags[k];
      var vs := MbidFilter(init).value;
      var before := MbidFilterKeeps(init);
      if MbidTag(t) {
        assert MbidFilter(tags).value == vs + [t[1]];
        idx := before + [|tags| - 1];
      } else {
        assert MbidFilter(tags).value == vs;
        idx := before;
      }
    }
  }

  /** The filter throws exactly when some `i` tag has no value, and otherwise
      keeps only MusicBrainz references. */
  lemma {:induction false} MbidFilterFails(tags: seq<seq<string>>)
    ensures MbidFilter(tags).Err? <==> HasBareI(tags)
    ensures MbidFilter(tags).Ok? ==> forall k :: 0 <= k < |MbidFilter(tags).value| ==> StartsWith(MbidFilter(tags).value[k], "mbid:")
    decreases |tags|
  {
    if tags != [] {
      var init := tags[..|tags| - 1];
      MbidFilterFails(init);
      assert forall k :: 0 <= k < |init| ==> init[k] == tags[k];
    }
  }

  function Cell(s: string): Option<string> { Some(s) }

  /** The three tags every audio track starts with. */
  function HeadTags(tags: seq<seq<string>>, id: string): seq<seq<Option<string>>> {
    [[Cell("d"), Cell(id)], [Cell("c"), Cell("title"), TagValue(tags, "track")], [Cell("i"), TagValue(tags, "i")]]
  }

  /** The `[c, key, value]` tag for the value of `key`, present only when that value is truthy. */
  function OptionalTag(tags: seq<seq<string>>, key: string): seq<seq<Option<string>>> {
    if Truthy(TagValue(tags, key)) then [[Cell("c"), Cell(key), TagValue(tags, key)]] else []
  }

  /** The album tag, then the artist tag. */
  function AlbumArtistTags(tags: seq<seq<string>>): seq<seq<Option<string>>> {
    OptionalTag(tags, "album") + OptionalTag(tags, "artist")
  }

  /** The cover-art tag, present only when the `r` value is truthy. */
  function CoverTag(tags: seq<seq<string>>): seq<seq<Option<string>>> {
    var cover := TagValue(tags, "r");
    if Truthy(cover) then [[Cell("imeta"), Cell("url " + cover.value)]] else []
  }

  /** The `[i, value]` tags for a list of values. */
  function MbidTags(vs: seq<string>): (r: seq<seq<Option<string>>>)
    ensures |r| == |vs| && forall k :: 0 <= k < |vs| ==> r[k] == [Cell("i"), Cell(vs[k])]
  {
    if vs == [] then [] else MbidTags(vs[..|vs| - 1]) + [[Cell("i"), Cell(vs[|vs| - 1])]]
  }

  /** `convertToAudioTrack` as a function of the input event, the clock (in
      milliseconds) and the fresh id. */
  function AudioTrackOf(ev: ScrobbleIn, nowMs: int, freshId: string): (r: Result<AudioTrack, string>)
    ensures r.Err? <==> HasBareI(ev.tags)
    ensures r.Ok? ==> r.value.kind == AudioTrackKind && r.value.createdAt == nowMs / 1000
    ensures r.Ok? ==> r.value.content == Text(TagValue(ev.tags, "artist")) + " - " + Text(TagValue(ev.tags, "track"))
    ensures r.Ok? ==> (|r.value.tags| >= 3 &&
              FindRecording(ev.tags).Ok? && r.value.tags[..3] == HeadTags(ev.tags, RecordingId(FindRecording(ev.tags).value, freshId)))
    ensures r.Ok? ==> MbidFilter(ev.tags).Ok? && r.value.tags[3..] == AlbumArtistTags(ev.tags) + MbidTags(MbidFilter(ev.tags).value) + CoverTag(ev.tags)
  {
    MbidFilterFails(ev.tags);
    FindRecordingFacts(ev.tags);
    match FindRecording(ev.tags)
    case Err(e) => Err(e)
    case Ok(found) =>
      match MbidFilter(ev.tags)
      case Err(e) => Err(e)
      case Ok(vs) =>
        var head := HeadTags(ev.tags, RecordingId(found, freshId));
        var rest := AlbumArtistTags(ev.tags) + MbidTags(vs) + CoverTag(ev.tags);
        assert (head + rest)[..3] == head && (head + rest)[3..] == rest;
        Ok(AudioTrack(AudioTrackKind,
          Text(TagValue(ev.tags, "artist")) + " - " + Text(TagValue(ev.tags, "track")),
          nowMs / 1000, head + rest))
  }

  /** `convertToAudioTrack`: builds the first three tags, then pushes the
      optional album and artist tags, every MusicBrainz `i` tag (the
      filter throws on a bare `i` tag) and the optional cover art. */
  method ConvertToAudioTrack(ev: ScrobbleIn, nowMs: int, freshId: string) returns (r: Result<AudioTrack, string>)
    ensures r == AudioTrackOf(ev, nowMs, freshId)
  {
    var content := Text(TagValue(ev.tags, "artist")) + " - " + Text(TagValue(ev.tags, "track"));
    var createdAt := nowMs / 1000;
    var tag := FindRecording(ev.tags);
    if tag.Err? {
      return Err(tag.error);
    }
    var id := RecordingId(tag.value, freshId);
    var tags := HeadTags(ev.tags, id);
    if Truthy(TagValue(ev.tags, "album")) {
      tags := tags + [[Cell("c"), Cell("album"), TagValue(ev.tags, "album")]];
    }
    assert tags == HeadTags(ev.tags, id) + OptionalTag(ev.tags, "album");
    if Truthy(TagValue(ev.tags, "artist")) {
      tags := tags + [[Cell("c"), Cell("artist"), TagValue(ev.tags, "artist")]];
    }
    assert tags == HeadTags(ev.tags, id) + OptionalTag(ev.tags, "album") + OptionalTag(ev.tags, "artist");
    var filtered := MbidFilter(ev.tags);
    if filtered.Err? {
      return Err(filtered.error);
    }
    var mbids := filtered.value;
    tags := PushMbidTags(tags, mbids);
    tags := tags + CoverTag(ev.tags);
    TagsAssoc(HeadTags(ev.tags, id), OptionalTag(ev.tags, "album"), OptionalTag(ev.tags, "artist"), MbidTags(mbids), CoverTag(ev.tags));
    r := Ok(AudioTrack(AudioTrackKind, content, createdAt, tags));
  }

  lemma TagsAssoc(h: seq<seq<Option<string>>>, a: seq<seq<Option<string>>>, b: seq<seq<Option<string>>>,
                  m: seq<seq<Option<string>>>, c: seq<seq<Option<string>>>)
    ensures h + a + b + m + c == h + (a + b + m + c)
  {
  }

  /** The `forEach` that pushes one `[i, value]` tag per filtered value. */
  method PushMbidTags(tags: seq<seq<Option<string>>>, mbids: seq<string>) returns (r: seq<seq<Option<string>>>)
    ensures r == tags + MbidTags(mbids)
  {
    r := tags;
    for k := 0 to |mbids|
      invariant r == tags + MbidTags(mbids[..k])
    {
      assert mbids[..k + 1][..k] == mbids[..k];
      r := r + [[Cell("i"), Cell(mbids[k])]];
    }
    assert mbids[..|mbids|] == mbids;
  }

  /** A recording reference with an empty third segment gives an empty id, not the fresh one. */
  lemma EmptyRecordingSegment(freshId: string)
    ensures RecordingId(Some("mbid:recording:"), freshId) == ""
  {
    assert "mbid:recording:" + "" == "mbid:recording:";
    RecordingSegment("", freshId);
  }

  /** A reference with a third segment yields that segment. */
  lemma RecordingSegment(mbid: string, freshId: string)
    requires ':' !in mbid
    ensures RecordingId(Some("mbid:recording:" + mbid), freshId) == mbid
  {
    assert "mbid:recording:" + mbid == "mbid" + ":" + ("recording" + ":" + mbid);
    SplitPrefix("mbid", "recording" + ":" + mbid);
    SplitPrefix("recording", mbid);
    SplitNone(mbid);
  }

  lemma {:induction false} SplitPrefix(head: string, rest: string)
    requires ':' !in head
    ensures Split(head + ":" + rest, ':') == [head] + Split(rest, ':')
    decreases |head|
  {
    if head == [] {
      assert head + ":" + rest == [':'] + rest;
      assert ([':'] + rest)[1..] == rest;
    } else {
      assert (head + ":" + rest)[1..] == head[1..] + ":" + rest;
      SplitPrefix(head[1..], rest);
      assert [head[0]] + head[1..] == head;
    }
  }

  lemma {:induction false} SplitNone(s: string)
    requires ':' !in s
    ensures Split(s, ':') == [s]
    decreases |s|
  {
    if s != [] {
      SplitNone(s[1..]);
      assert [s[0]] + s[1..] == s;
    }
  }

  /** An event without `i` tags (such as one the cmus scrobbler publishes)
      converts to the fresh id, its own title, an undefined `i` value, and the
      album and artist tags only when those are non-empty. */
  lemma ConvertCmusScrobble(artist: string, track: string, album: string, mbid: string, nowMs: int, freshId: string)
    ensures var ev := ScrobbleIn([["artist", artist], ["track", track], ["album", album], ["mbid", mbid]]);
            AudioTrackOf(ev, nowMs, freshId) == Ok(AudioTrack(AudioTrackKind, artist + " - " + track, nowMs / 1000,
              [[Cell("d"), Cell(freshId)], [Cell("c"), Cell("title"), Some(track)], [Cell("i"), None]] +
              (if album != "" then [[Cell("c"), Cell("album"), Some(album)]] else []) +
              (if artist != "" then [[Cell("c"), Cell("artist"), Some(artist)]] else [])))
  {
    var ev := ScrobbleIn([["artist", artist], ["track", track], ["album", album], ["mbid", mbid]]);
    NoITags(ev.tags);
    CmusTagValues(artist, track, album, mbid);
    var head := [[Cell("d"), Cell(freshId)], [Cell("c"), Cell("title"), Some(track)], [Cell("i"), None]];
    var rest := (if album != "" then [[Cell("c"), Cell("album"), Some(album)]] else []) +
                (if artist != "" then [[Cell("c"), Cell("artist"), Some(artist)]] else []);
    assert HeadTags(ev.tags, RecordingId(None, freshId)) == head;
    assert AlbumArtistTags(ev.tags) + MbidTags([]) + CoverTag(ev.tags) == rest;
    assert AudioTrackOf(ev, nowMs, freshId) == Ok(AudioTrack(AudioTrackKind, artist + " - " + track, nowMs / 1000, head + rest));
    assert head + rest == head + (if album != "" then [[Cell("c"), Cell("album"), Some(album)]] else []) +
                                 (if artist != "" then [[Cell("c"), Cell("artist"), Some(artist)]] else []);
  }

  /** The tag values of a cmus scrobble. */
  lemma CmusTagValues(artist: string, track: string, album: string, mbid: string)
    ensures var tags := [["artist", artist], ["track", track], ["album", album], ["mbid", mbid]];
            TagValue(tags, "artist") == Some(artist) && TagValue(tags, "track") == Some(track) &&
            TagValue(tags, "album") == Some(album) && TagValue(tags, "i") == None && TagValue(tags, "r") == None
  {
    var tags := [["artist", artist], ["track", track], ["album", album], ["mbid", mbid]];
    var t1, t2, t3 := tags[1..], tags[2..], tags[3..];
    assert t1 == [["track", track], ["album", album], ["mbid", mbid]] && t1[1..] == t2;
    assert t2 == [["album", album], ["mbid", mbid]] && t2[1..] == t3;
    assert t3 == [["mbid", mbid]] && t3[1..] == [];
    assert TagValue(t3, "i") == None && TagValue(t3, "r") == None;
    assert TagValue(t2, "i") == None && TagValue(t2, "r") == None;
    assert TagValue(t1, "i") == None && TagValue(t1, "r") == None;
    assert TagValue(t1, "track") == Some(track) && TagValue(t2, "album") == Some(album);
  }

  /** Without `i` tags there is no recording reference and no MusicBrainz tag. */
  lemma {:induction false} NoITags(tags: seq<seq<string>>)
    requires forall k :: 0 <= k < |tags| ==> !Named(tags[k], "i")
    ensures FindRecording(tags) == Ok(None) && MbidFilter(tags) == Ok([])
    decreases |tags|
  {
    if tags != [] {
      assert forall k :: 0 <= k < |tags[1..]| ==> tags[1..][k] == tags[k + 1];
      assert forall k :: 0 <= k < |tags[..|tags| - 1]| ==> tags[..|tags| - 1][k] == tags[k];
      NoITags(tags[1..]);
      NoITags(tags[..|tags| - 1]);
    }
  }
}
