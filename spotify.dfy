/** The Spotify plugin's encoder from the currently playing item to a scrobble
    event (kind 2002). */
module Spotify {
  import opened Wrappers
  import opened NostrEvent
  import RelayStats

  /** The fields of Spotify's currently-playing answer that the encoder reads:
      `item.name`, `item.uri`, the names of `item.artists` and the urls of
      `item.album.images`, in the order Spotify lists them. */
  datatype SpotifyTrack = SpotifyTrack(name: string, uri: string, artists: seq<string>, images: seq<string>)

  datatype SpotifyEvent = SpotifyEvent(kind: int, content: string, tags: seq<Tag>, createdAt: int)

  /** `convertToKind2002Event` with the clock (in milliseconds) as a parameter;
      an empty artist or image list makes `[0].name` or `[0].url` throw a
      TypeError, the artists being read first. */
  function ConvertToKind2002Event(t: SpotifyTrack, nowMs: int): (r: Result<SpotifyEvent, string>)
    ensures r.Err? <==> t.artists == [] || t.images == []
    ensures r.Err? ==> r.error == "TypeError"
    ensures r.Ok? ==> r.value.kind == ScrobbleKind
    ensures r.Ok? ==> r.value.content == t.name + " - " + t.artists[0]
    ensures r.Ok? ==> r.value.tags == [["i", t.uri], ["source", "spotify"], ["r", t.images[0]]]
    ensures r.Ok? ==> r.value.createdAt * 1000 <= nowMs < r.value.createdAt * 1000 + 1000
  {
    if t.artists == [] || t.images == [] then Err("TypeError")
    else
      Ok(SpotifyEvent(2002, t.name + " - " + t.artists[0],
                      [["i", t.uri], ["source", "spotify"], ["r", t.images[0]]], nowMs / 1000))
  }

  /** The event signed by `pubkey`. */
  function Signed(e: SpotifyEvent, pubkey: string): Event {
    Event(pubkey, e.createdAt, e.kind, e.content, e.tags)
  }

  /** The relay accepts a Spotify scrobble, but it carries no artist or track
      tag, so the relay's statistics count it under the empty artist and song. */
  lemma RelayCountsAnonymously(t: SpotifyTrack, nowMs: int, pubkey: string)
    requires t.artists != [] && t.images != []
    ensures RelayStats.RejectEvent(Signed(ConvertToKind2002Event(t, nowMs).value, pubkey)) == (false, "")
    ensures RelayStats.FirstTagValue(ConvertToKind2002Event(t, nowMs).value.tags, "artist") == ""
    ensures RelayStats.FirstTagValue(ConvertToKind2002Event(t, nowMs).value.tags, "track") == ""
  {
    var tags := ConvertToKind2002Event(t, nowMs).value.tags;
    assert !RelayStats.TagMatches(tags[0], "artist") && !RelayStats.TagMatches(tags[1], "artist") && !RelayStats.TagMatches(tags[2], "artist");
    assert !RelayStats.TagMatches(tags[0], "track") && !RelayStats.TagMatches(tags[1], "track") && !RelayStats.TagMatches(tags[2], "track");
  }
}
