/** The browser extension's encoder from Last.fm's now-playing track to a
    scrobble event (kind 2002). */
module LastfmExtension {
  import opened Wrappers
  import opened NostrEvent
  import LastfmImport

  /** The fields of a Last.fm track that the encoder reads; `images` holds the
      `#text` of each entry of `image`, smallest first. */
  datatype NowPlaying = NowPlaying(name: string, artist: string, album: string, mbid: string, albumMbid: string, images: seq<string>)

  datatype ExtEvent = ExtEvent(kind: int, content: string, createdAt: int, tags: seq<seq<string>>)

  /** The MusicBrainz tags: the recording, then the release, each only when its id is non-empty. */
  function MbidTags(s: NowPlaying): seq<seq<string>> {
    (if s.mbid != "" then [["i", "mbid:recording:" + s.mbid]] else []) +
    (if s.albumMbid != "" then [["i", "mbid:release:" + s.albumMbid]] else [])
  }

  /** `scrobbleToNostrEvent` as a function of the track and the clock (in
      milliseconds); fewer than three images make `scrobble.image[2]["#text"]`
      throw a TypeError. */
  function ExtensionEvent(s: NowPlaying, nowMs: int): (r: Result<ExtEvent, string>)
    ensures r.Err? <==> |s.images| < 3
    ensures r.Ok? ==> r.value.kind == ScrobbleKind && r.value.content == s.name + " by " + s.artist
    ensures r.Ok? ==> r.value.createdAt == nowMs / 1000
    ensures r.Ok? ==> |r.value.tags| == 4 + (if s.mbid != "" then 1 else 0) + (if s.albumMbid != "" then 1 else 0)
    ensures r.Ok? ==> r.value.tags[..4] == [["r", s.images[2]], ["artist", s.artist], ["album", s.album], ["track", s.name]]
    ensures r.Ok? ==> (s.mbid != "" <==> ["i", "mbid:recording:" + s.mbid] in r.value.tags)
    ensures r.Ok? ==> (s.albumMbid != "" <==> ["i", "mbid:release:" + s.albumMbid] in r.value.tags)
    ensures r.Ok? && s.mbid != "" && s.albumMbid != "" ==>
              r.value.tags[4] == ["i", "mbid:recording:" + s.mbid] && r.value.tags[5] == ["i", "mbid:release:" + s.albumMbid]
  {
    if |s.images| < 3 then Err("TypeError")
    else
      var head := [["r", s.images[2]], ["artist", s.artist], ["album", s.album], ["track", s.name]];
      var tags := head + MbidTags(s);
      assert tags[..4] == head;
      assert ["i", "mbid:recording:" + s.mbid] !in head && ["i", "mbid:release:" + s.albumMbid] !in head;
      assert s.mbid == "" ==> ["i", "mbid:recording:" + s.mbid] !in MbidTags(s) by {
        if s.mbid == "" && s.albumMbid != "" {
          assert "mbid:recording:" + s.mbid != "mbid:release:" + s.albumMbid by {
            assert ("mbid:recording:" + s.mbid)[5] == 'r' && ("mbid:release:" + s.albumMbid)[7] == 'l';
            assert ("mbid:recording:" + s.mbid)[7] == 'c';
          }
        }
      }
      assert s.albumMbid == "" ==> ["i", "mbid:release:" + s.albumMbid] !in MbidTags(s) by {
        if s.albumMbid == "" && s.mbid != "" {
          assert ("mbid:recording:" + s.mbid)[7] == 'c' && ("mbid:release:" + s.albumMbid)[7] == 'l';
        }
      }
      Ok(ExtEvent(2002, s.name + " by " + s.artist, nowMs / 1000, tags))
  }

  /** `scrobbleToNostrEvent`: the four fixed tags, then the optional pushes. */
  method ScrobbleToNostrEvent(s: NowPlaying, nowMs: int) returns (r: Result<ExtEvent, string>)
    ensures r == ExtensionEvent(s, nowMs)
  {
    var content := s.name + " by " + s.artist;
    if |s.images| < 3 {
      return Err("TypeError");
    }
    var head := [["r", s.images[2]], ["artist", s.artist], ["album", s.album], ["track", s.name]];
    var tags := head;
    if s.mbid != "" {
      tags := tags + [["i", "mbid:recording:" + s.mbid]];
    }
    if s.albumMbid != "" {
      tags := tags + [["i", "mbid:release:" + s.albumMbid]];
    }
    assert tags == head + MbidTags(s);
    r := Ok(ExtEvent(2002, content, nowMs / 1000, tags));
  }

  /** The extension and the history importer describe the same track with the
      same content and the same artist, album and track tags. */
  lemma AgreesWithImporter(s: NowPlaying, h: LastfmImport.LastfmScrobble, nowMs: int)
    requires |s.images| >= 3 && h.date.Some?
    requires h.name == s.name && h.artist == s.artist && h.album == s.album
    ensures ExtensionEvent(s, nowMs).value.content == LastfmImport.ScrobbleToNostrEvent(h).value.content
    ensures ExtensionEvent(s, nowMs).value.tags[1..4] == LastfmImport.ScrobbleToNostrEvent(h).value.tags[1..4]
  {
    assert ExtensionEvent(s, nowMs).value.tags[1..4] == ExtensionEvent(s, nowMs).value.tags[..4][1..4];
  }
}
