/** The cmus scrobbler's main loop: one iteration decides, from what the
    player, the relays and the clock report, whether to do nothing, to skip a
    recent duplicate, or to publish; the only state kept between iterations
    is the key of the last track announced. */
module CmusScrobbler {
  import opened Wrappers
  import opened NostrEvent
  import opened CmusNostr
  import opened CmusStatus

  /** `resubmitThreshold`: ten minutes, in seconds. */
  const ResubmitThreshold: int := 600

  /** The value of the last tag with at least two elements whose key is `key`, or "". */
  function LastTagValue(tags: seq<Tag>, key: string): string
    decreases |tags|
  {
    if tags == [] then ""
    else
      var t := tags[|tags| - 1];
      if |t| >= 2 && t[0] == key then t[1] else LastTagValue(tags[..|tags| - 1], key)
  }

  predicate TagIs(t: Tag, key: string) { |t| >= 2 && t[0] == key }

  /** A matching tag that no later matching tag follows decides the value. */
  lemma {:induction false} LastMatchWins(tags: seq<Tag>, key: string, k: nat)
    requires k < |tags| && TagIs(tags[k], key)
    requires forall j :: k < j < |tags| ==> !TagIs(tags[j], key)
    ensures LastTagValue(tags, key) == tags[k][1]
    decreases |tags|
  {
    if k < |tags| - 1 {
      var init := tags[..|tags| - 1];
      forall j | k < j < |init| ensures !TagIs(init[j], key) { assert init[j] == tags[j]; }
      LastMatchWins(init, key, k);
    }
  }

  /** Without a matching tag the value is "". */
  lemma {:induction false} NoMatchIsEmpty(tags: seq<Tag>, key: string)
    requires forall j :: 0 <= j < |tags| ==> !TagIs(tags[j], key)
    ensures LastTagValue(tags, key) == ""
    decreases |tags|
  {
    if tags != [] {
      var init := tags[..|tags| - 1];
      forall j | 0 <= j < |init| ensures !TagIs(init[j], key) { assert init[j] == tags[j]; }
      NoMatchIsEmpty(init, key);
    }
  }

  /** The track key an event's tags name. */
  function TrackFromEvent(ev: Event): string {
    TrackKey(LastTagValue(ev.tags, "artist"), LastTagValue(ev.tags, "track"))
  }

  /** `getTrackFromEvent`: one pass over the tags, a later `artist` or
      `track` tag overwriting an earlier one, tags shorter than two ignored. */
  method GetTrackFromEvent(ev: Event) returns (r: string)
    ensures r == TrackFromEvent(ev)
  {
    var artist, track := "", "";
    var i := 0;
    while i < |ev.tags|
      invariant 0 <= i <= |ev.tags|
      invariant artist == LastTagValue(ev.tags[..i], "artist")
      invariant track == LastTagValue(ev.tags[..i], "track")
    {
      assert ev.tags[..i + 1][..i] == ev.tags[..i];
      var tag := ev.tags[i];
      if |tag| >= 2 {
        if tag[0] == "artist" {
          artist := tag[1];
        } else if tag[0] == "track" {
          track := tag[1];
        }
      }
      i := i + 1;
    }
    assert ev.tags[..|ev.tags|] == ev.tags;
    r := TrackKey(artist, track);
  }

  /** Decoding an event this client created gives back its content. */
  lemma CreateThenDecode(n: NostrClient, s: ScrobbleEvent, now: int)
    ensures TrackFromEvent(n.CreateScrobbleEvent(s, now).value) == n.CreateScrobbleEvent(s, now).value.content
  {
    var tags := n.CreateScrobbleEvent(s, now).value.tags;
    LastMatchWins(tags, "artist", 0);
    LastMatchWins(tags, "track", 1);
  }

  /** `createAndPublishScrobble`: build, then broadcast; since neither step
      ever reports an error, neither does this. */
  method CreateAndPublishScrobble(n: NostrClient, s: ScrobbleEvent, now: int, delivered: seq<bool>)
    returns (err: Outcome<string>, ev: Event, log: seq<PublishReport>)
    requires |delivered| == |n.relays|
    ensures err == Pass
    ensures ev == n.CreateScrobbleEvent(s, now).value && ev.content == TrackKey(s.artist, s.track)
    ensures |log| == |n.relays| && forall k :: 0 <= k < |log| ==> log[k] == PublishReport(n.relays[k].url, delivered[k])
  {
    var created := n.CreateScrobbleEvent(s, now);
    ev := created.value;
    var published;
    published, log := n.PublishEvent(ev, delivered);
    err := Pass;
  }

  /** What one iteration observes: the `waitForCmus` outcome, the
      `getCurrentTrack` result, the `GetLastScrobble` result, the clock
      (seconds) and the `createAndPublishScrobble` outcome (consulted only
      when the iteration publishes). */
  datatype Poll = Poll(
    ready: Outcome<CmusError>,
    current: Result<ScrobbleEvent, CmusError>,
    lastScrobble: Result<Option<Event>, string>,
    now: int,
    publish: Outcome<string>)

  /** What one iteration did. */
  datatype Verdict =
    | NotReady              // cmus not running or not playing
    | NoTrack               // the current track could not be read
    | Untitled              // no title (also: not played long enough)
    | AlreadyScrobbled      // same key as the last announced track; nothing queried
    | LookupFailed          // the history query failed; retried next time
    | Suppressed            // a recent identical remote scrobble exists
    | Published(scrobble: ScrobbleEvent)
    | PublishFailed(scrobble: ScrobbleEvent)

  /** The iteration consulted the relays' history. */
  predicate Queried(v: Verdict) {
    v.LookupFailed? || v.Suppressed? || v.Published? || v.PublishFailed?
  }

  /** The key of the track a poll presents, if it presents one. */
  function PresentedKey(p: Poll): Option<string> {
    if p.ready.Pass? && p.current.Ok? && p.current.value.track != "" then
      Some(TrackKey(p.current.value.artist, p.current.value.track))
    else None
  }

  /** The newest remote scrobble is younger than ten minutes and names the same track. */
  predicate IsRecentDuplicate(last: Option<Event>, key: string, now: int) {
    last.Some? && now - last.value.createdAt < ResubmitThreshold && TrackFromEvent(last.value) == key
  }

  /** One iteration as a function of the previous `lastTrack`: the verdict and the new `lastTrack`. */
  function Cycle(lastTrack: string, p: Poll): (Verdict, string) {
    if p.ready.Fail? then (NotReady, lastTrack)
    else if p.current.Err? then (NoTrack, lastTrack)
    else if p.current.value.track == "" then (Untitled, lastTrack)
    else
      var key := TrackKey(p.current.value.artist, p.current.value.track);
      if key == lastTrack then (AlreadyScrobbled, lastTrack)
      else if p.lastScrobble.Err? then (LookupFailed, lastTrack)
      else if IsRecentDuplicate(p.lastScrobble.value, key, p.now) then (Suppressed, p.lastScrobble.value.value.content)
      else if p.publish.Fail? then (PublishFailed(p.current.value), lastTrack)
      else (Published(p.current.value), key)
  }

  /** A run of iterations from `lastTrack`: the verdicts and the final `lastTrack`. */
  function Trace(lastTrack: string, polls: seq<Poll>): (r: (seq<Verdict>, string))
    ensures |r.0| == |polls|
    decreases |polls|
  {
    if polls == [] then ([], lastTrack)
    else
      var (v, next) := Cycle(lastTrack, polls[0]);
      var (vs, last) := Trace(next, polls[1..]);
      ([v] + vs, last)
  }

  /** Number of successful publications. */
  function Publications(vs: seq<Verdict>): nat
    decreases |vs|
  {
    if vs == [] then 0 else (if vs[0].Published? then 1 else 0) + Publications(vs[1..])
  }

  /** Every poll that presents a track presents `key`. */
  predicate SameTrack(polls: seq<Poll>, key: string) {
    forall k :: 0 <= k < |polls| ==> PresentedKey(polls[k]).None? || PresentedKey(polls[k]).value == key
  }

  /** Once `key` is the last announced track, polls of that track never query
      the relays again, never publish, and leave `lastTrack` as it is. */
  lemma {:induction false} NothingAfterAnnounce(polls: seq<Poll>, key: string)
    requires SameTrack(polls, key)
    ensures Trace(key, polls).1 == key
    ensures Publications(Trace(key, polls).0) == 0
    ensures forall k :: 0 <= k < |polls| ==> !Queried(Trace(key, polls).0[k])
    decreases |polls|
  {
    if polls != [] {
      assert PresentedKey(polls[0]).None? || PresentedKey(polls[0]).value == key;
      var rest := polls[1..];
      assert SameTrack(rest, key) by {
        forall k | 0 <= k < |rest| ensures PresentedKey(rest[k]).None? || PresentedKey(rest[k]).value == key {
          assert rest[k] == polls[k + 1];
        }
      }
      NothingAfterAnnounce(rest, key);
    }
  }

  /** Repeated polls of one track publish it at most once, and not at all when
      it was already the last announced track. */
  lemma {:induction false} AtMostOnePublication(lastTrack: string, polls: seq<Poll>, key: string)
    requires SameTrack(polls, key)
    ensures Publications(Trace(lastTrack, polls).0) <= 1
    ensures lastTrack == key ==> Publications(Trace(lastTrack, polls).0) == 0
    decreases |polls|
  {
    if lastTrack == key {
      NothingAfterAnnounce(polls, key);
    } else if polls != [] {
      var rest := polls[1..];
      assert SameTrack(rest, key) by {
        forall k | 0 <= k < |rest| ensures PresentedKey(rest[k]).None? || PresentedKey(rest[k]).value == key {
          assert rest[k] == polls[k + 1];
        }
      }
      var (v, next) := Cycle(lastTrack, polls[0]);
      if v.Published? {
        NothingAfterAnnounce(rest, key);
      } else {
        AtMostOnePublication(next, rest, key);
      }
    }
  }

  /** A track that has not played more than 30 seconds is never published. */
  lemma ShortPlayNeverPublishes(lastTrack: string, p: Poll, status: CmusOutput)
    requires p.current == GetCurrentTrack(Ok(status)) && status.position <= 30
    ensures !Cycle(lastTrack, p).0.Published? && Cycle(lastTrack, p).1 == lastTrack
  {
    ShortPlayHasNoTitle(status);
  }

  /** The state of `runScrobbler`. */
  class Scrobbler {
    var lastTrack: string

    constructor ()
      ensures lastTrack == ""
    {
      lastTrack := "";
    }

    /** One iteration of the `runScrobbler` loop (the sleep is not modelled). */
    method Step(p: Poll) returns (v: Verdict)
      modifies this
      ensures (v, lastTrack) == Cycle(old(lastTrack), p)
      ensures PresentedKey(p).None? ==> lastTrack == old(lastTrack) && !Queried(v) && !v.Published?
      ensures PresentedKey(p) == Some(old(lastTrack)) ==> v == AlreadyScrobbled && lastTrack == old(lastTrack)
      ensures PresentedKey(p).Some? && PresentedKey(p).value != old(lastTrack) && p.lastScrobble.Err? ==>
                v == LookupFailed && lastTrack == old(lastTrack)
      ensures PresentedKey(p).Some? && PresentedKey(p).value != old(lastTrack) && p.lastScrobble.Ok? &&
              IsRecentDuplicate(p.lastScrobble.value, PresentedKey(p).value, p.now) ==>
                v == Suppressed && lastTrack == p.lastScrobble.value.value.content
      ensures PresentedKey(p).Some? && PresentedKey(p).value != old(lastTrack) && p.lastScrobble.Ok? &&
              !IsRecentDuplicate(p.lastScrobble.value, PresentedKey(p).value, p.now) && p.publish.Pass? ==>
                v == Published(p.current.value) && lastTrack == PresentedKey(p).value
      ensures v.PublishFailed? ==> lastTrack == old(lastTrack)
    {
      if p.ready.Fail? {
        return NotReady;
      }
      if p.current.Err? {
        return NoTrack;
      }
      var scrobble := p.current.value;
      if scrobble.track == "" {
        return Untitled;
      }
      var currentTrack := TrackKey(scrobble.artist, scrobble.track);
      if currentTrack == lastTrack {
        return AlreadyScrobbled;
      }
      if p.lastScrobble.Err? {
        return LookupFailed;
      }
      var shouldSubmit := true;
      v := Suppressed;
      if p.lastScrobble.value.Some? {
        var lastEvent := p.lastScrobble.value.value;
        var timeSinceLastEvent := p.now - lastEvent.createdAt;
        var lastEventTrack := GetTrackFromEvent(lastEvent);
        if timeSinceLastEvent < ResubmitThreshold && lastEventTrack == currentTrack {
          shouldSubmit := false;
          lastTrack := lastEvent.content;
        }
      }
      if shouldSubmit {
        if p.publish.Fail? {
          v := PublishFailed(scrobble);
        } else {
          lastTrack := currentTrack;
          v := Published(scrobble);
        }
      }
    }

    /** `runScrobbler` over a finite sequence of iterations. */
    method Run(polls: seq<Poll>) returns (verdicts: seq<Verdict>)
      modifies this
      ensures (verdicts, lastTrack) == Trace(old(lastTrack), polls)
    {
      verdicts := [];
      ghost var start := lastTrack;
      assert polls[0..] == polls;
      assert Trace(start, polls).0 == verdicts + Trace(start, polls).0;
      var i := 0;
      while i < |polls|
        invariant 0 <= i <= |polls|
        invariant start == old(lastTrack)
        invariant Trace(start, polls).0 == verdicts + Trace(lastTrack, polls[i..]).0
        invariant Trace(start, polls).1 == Trace(lastTrack, polls[i..]).1
      {
        ghost var before := lastTrack;
        assert polls[i..][0] == polls[i] && polls[i..][1..] == polls[i + 1..];
        var v := Step(polls[i]);
        assert Trace(before, polls[i..]).0 == [v] + Trace(lastTrack, polls[i + 1..]).0;
        assert Trace(before, polls[i..]).1 == Trace(lastTrack, polls[i + 1..]).1;
        assert verdicts + ([v] + Trace(lastTrack, polls[i + 1..]).0) == (verdicts + [v]) + Trace(lastTrack, polls[i + 1..]).0;
        verdicts := verdicts + [v];
        i := i + 1;
      }
      assert Trace(lastTrack, polls[i..]).0 == [];
      assert verdicts + [] == verdicts;
    }
  }

  /** A poll of "Muse - Starlight" with no remote history. */
  function StarlightPoll(now: int): Poll {
    Poll(Pass, Ok(ScrobbleEvent("Muse", "Starlight", "", "")), Ok(None), now, Pass)
  }

  /** A fresh process publishes "Muse - Starlight" once and not again two minutes later. */
  lemma StarlightOnce()
    ensures Trace("", [StarlightPoll(1000), StarlightPoll(1120)]).0 ==
      [Published(ScrobbleEvent("Muse", "Starlight", "", "")), AlreadyScrobbled]
  {
  }

  /** A fresh process finding the same track scrobbled three minutes ago suppresses it. */
  lemma RecentRemoteSuppresses(remote: Event)
    requires remote.tags == [["artist", "Muse"], ["track", "Starlight"]]
    ensures Cycle("", Poll(Pass, Ok(ScrobbleEvent("Muse", "Starlight", "", "")), Ok(Some(remote)), remote.createdAt + 180, Pass))
      == (Suppressed, remote.content)
  {
    LastMatchWins(remote.tags, "artist", 0);
    LastMatchWins(remote.tags, "track", 1);
  }
}
