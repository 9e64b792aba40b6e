/** The cmus scrobbler's Nostr client: the relay pool it connects at start-up,
    the scrobble event it builds, broadcast, and the history query. Network
    outcomes are inputs: a connect attempt, a delivery or a relay's answer to a
    query is given, not performed. */
module CmusNostr {
  import opened Wrappers
  import opened NostrEvent
  import opened Sorting
  import opened History

  /** What the player reports about the current track (Go's `ScrobbleEvent` struct). */
  datatype ScrobbleEvent = ScrobbleEvent(artist: string, track: string, album: string, mbId: string)

  /** `fmt.Sprintf("%s - %s", artist, track)`: the key both the event content and de-duplication use. */
  function TrackKey(artist: string, track: string): string {
    artist + " - " + track
  }

  /** A live relay connection. */
  datatype Relay = Relay(url: string)

  /** The outcome of `nostr.RelayConnect` for one configured URL. */
  datatype Dial = Dial(url: string, connected: bool)

  /** What `PublishEvent` logs for one relay. */
  datatype PublishReport = PublishReport(url: string, delivered: bool)

  /** The relays whose connection succeeded, in configuration order. */
  function ConnectedRelays(dials: seq<Dial>): (r: seq<Relay>)
    ensures |r| <= |dials|
    ensures r == [] <==> forall k :: 0 <= k < |dials| ==> !dials[k].connected
    decreases |dials|
  {
    if dials == [] then []
    else
      var init := ConnectedRelays(dials[..|dials| - 1]);
      var last := dials[|dials| - 1];
      assert forall k :: 0 <= k < |dials| - 1 ==> dials[..|dials| - 1][k] == dials[k];
      if last.connected then init + [Relay(last.url)] else init
  }

  /** Every kept relay was dialled and connected; connected URLs are kept in order. */
  lemma {:induction false} ConnectedRelaysExact(dials: seq<Dial>)
    ensures forall r :: r in ConnectedRelays(dials) ==> Dial(r.url, true) in dials
    ensures forall k :: 0 <= k < |dials| && dials[k].connected ==> Relay(dials[k].url) in ConnectedRelays(dials)
    decreases |dials|
  {
    if dials != [] {
      var init := dials[..|dials| - 1];
      ConnectedRelaysExact(init);
      assert dials == init + [dials[|dials| - 1]];
      forall k | 0 <= k < |dials| - 1 && dials[k].connected
        ensures Relay(dials[k].url) in ConnectedRelays(dials)
      {
        assert init[k] == dials[k];
      }
    }
  }

  /** The client: the key pair (opaque; decoding and signing are not modelled)
      and the pool of connected relays. */
  class NostrClient {
    const sk: string
    const pk: string
    var relays: seq<Relay>

    constructor (sk: string, pk: string)
      ensures this.sk == sk && this.pk == pk && relays == []
    {
      this.sk := sk;
      this.pk := pk;
      relays := [];
    }

    /** `connectToRelays`: appends every relay that connected; fails only when the pool is then empty. */
    method ConnectToRelays(dials: seq<Dial>) returns (err: Outcome<string>)
      modifies this
      ensures relays == old(relays) + ConnectedRelays(dials)
      ensures err.Fail? <==> relays == []
      ensures err.Fail? ==> err.error == "failed to connect to any relays"
    {
      var i := 0;
      while i < |dials|
        invariant 0 <= i <= |dials|
        invariant relays == old(relays) + ConnectedRelays(dials[..i])
      {
        assert dials[..i + 1][..i] == dials[..i];
        if dials[i].connected {
          relays := relays + [Relay(dials[i].url)];
        }
        i := i + 1;
      }
      assert dials[..|dials|] == dials;
      if |relays| == 0 {
        return Fail("failed to connect to any relays");
      }
      return Pass;
    }

    /** `CreateScrobbleEvent`: a kind-2002 event stamped `now` (seconds),
        authored by this key, whose content is the track key and whose tags are
        artist, track, album and MusicBrainz id in that order. It never fails. */
    function CreateScrobbleEvent(s: ScrobbleEvent, now: int): (r: Result<Event, string>)
      ensures r.Ok?
      ensures r.value.kind == ScrobbleKind && r.value.createdAt == now && r.value.pubkey == pk
      ensures r.value.content == TrackKey(s.artist, s.track)
      ensures r.value.tags == [["artist", s.artist], ["track", s.track], ["album", s.album], ["mbid", s.mbId]]
    {
      Ok(Event(pk, now, ScrobbleKind, TrackKey(s.artist, s.track),
               [["artist", s.artist], ["track", s.track], ["album", s.album], ["mbid", s.mbId]]))
    }

    /** `PublishEvent`: offers the event to every relay in pool order, logs
        each delivery, and reports success whatever the relays did. */
    method PublishEvent(ev: Event, delivered: seq<bool>) returns (err: Outcome<string>, log: seq<PublishReport>)
      requires |delivered| == |relays|
      ensures err == Pass
      ensures |log| == |relays|
      ensures forall k :: 0 <= k < |log| ==> log[k] == PublishReport(relays[k].url, delivered[k])
    {
      log := [];
      var i := 0;
      while i < |relays|
        invariant 0 <= i <= |relays|
        invariant |log| == i
        invariant forall k :: 0 <= k < i ==> log[k] == PublishReport(relays[k].url, delivered[k])
      {
        log := log + [PublishReport(relays[i].url, delivered[i])];
        i := i + 1;
      }
      err := Pass;
    }

    /** `QueryRecentScrobbles`: sends the scrobble filter to every relay in the
        pool, skips the ones whose query failed, and returns the collected
        events newest first, cut to `limit`. It never reports an error. */
    method QueryRecentScrobbles(limit: nat, answers: seq<Option<seq<Event>>>)
      returns (events: seq<Event>, err: Outcome<string>)
      requires |answers| == |relays|
      ensures err == Pass
      ensures NewestFirst(answers, events, limit)
      ensures |events| == Min(limit, |Collected(answers)|)
      ensures SortedDesc(events, CreatedAt)
      ensures AnswersMatch(answers, ScrobbleFilter(pk, limit)) ==>
                forall e :: e in events ==> e.kind == ScrobbleKind && e.pubkey == pk
    {
      var allEvents: seq<Event> := [];
      var i := 0;
      while i < |relays|
        invariant 0 <= i <= |relays|
        invariant allEvents == Collected(answers[..i])
      {
        CollectedStep(answers, i);
        if answers[i].Some? {
          allEvents := allEvents + answers[i].value;
        }
        i := i + 1;
      }
      assert answers[..|answers|] == answers;
      events := Take(SortDesc(allEvents, CreatedAt), limit);
      MergeFacts(answers, pk, limit);
      err := Pass;
    }

    /** `GetLastScrobble`: the newest event of a `limit = 1` query, or none
        when no relay returned anything; never an error. */
    method GetLastScrobble(answers: seq<Option<seq<Event>>>) returns (r: Result<Option<Event>, string>)
      requires |answers| == |relays|
      ensures r.Ok?
      ensures r.value.None? <==> Collected(answers) == []
      ensures r.value.Some? ==> r.value.value in Collected(answers)
      ensures r.value.Some? ==> forall e :: e in Collected(answers) ==> r.value.value.createdAt >= e.createdAt
    {
      var events, err := QueryRecentScrobbles(1, answers);
      // The query never fails, so the source's early error return is never taken.
      assert err == Pass;
      NewestOfOne(answers, events);
      if |events| == 0 {
        return Ok(None);
      }
      return Ok(Some(events[0]));
    }
  }
}
