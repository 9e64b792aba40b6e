/** The web UI's aggregations over the scrobble events it fetched: play
    counts per artist, the newest-first event list and the recently played
    artists. */
module ScrobblerUi {
  import opened Wrappers
  import opened Sorting

  /** An event as the UI holds it; `created_at` may be undefined. */
  datatype UiEvent = UiEvent(createdAt: Option<int>, tags: seq<seq<string>>)

  /** `ArtistPlayCount` (the optional image URL is never set here). */
  datatype ArtistPlayCount = ArtistPlayCount(artist: string, playCount: int, lastStreamedAt: int)

  function PlayCountOf(x: ArtistPlayCount): int { x.playCount }

  function Max(a: int, b: int): int { if a >= b then a else b }

  /** `tags.find(tag => tag[0] === key)`: the first tag whose first element is
      `key` (an empty tag has an undefined first element and never matches). */
  function FindTag(tags: seq<seq<string>>, key: string): (r: Option<seq<string>>)
    ensures r.None? <==> forall k :: 0 <= k < |tags| ==> !(|tags[k]| > 0 && tags[k][0] == key)
    ensures r.Some? ==> exists k :: 0 <= k < |tags| && tags[k] == r.value && |tags[k]| > 0 && tags[k][0] == key &&
                                    forall j :: 0 <= j < k ==> !(|tags[j]| > 0 && tags[j][0] == key)
    decreases |tags|
  {
    if tags == [] then None
    else if |tags[0]| > 0 && tags[0][0] == key then Some(tags[0])
    else
      var r := FindTag(tags[1..], key);
      assert forall k :: 1 <= k < |tags| ==> tags[1..][k - 1] == tags[k];
      if r.Some? then
        var k :| 0 <= k < |tags[1..]| && tags[1..][k] == r.value && |tags[1..][k]| > 0 && tags[1..][k][0] == key &&
                 forall j :: 0 <= j < k ==> !(|tags[1..][j]| > 0 && tags[1..][j][0] == key);
        assert tags[k + 1] == r.value;
        assert forall j :: 0 <= j < k + 1 ==> !(|tags[j]| > 0 && tags[j][0] == key) by {
          forall j | 0 <= j < k + 1 ensures !(|tags[j]| > 0 && tags[j][0] == key) {
            if j > 0 { assert tags[j] == tags[1..][j - 1]; }
          }
        }
        r
      else r
  }

  /** `event.tags.find(tag => tag[0] === 'artist')?.[1]`, kept only when truthy:
      the second element of the first artist tag, when it exists and is not empty. */
  function ArtistOf(e: UiEvent): (r: Option<string>)
    ensures r.Some? ==> r.value != ""
  {
    match FindTag(e.tags, "artist")
    case None => None
    case Some(t) => if |t| > 1 && t[1] != "" then Some(t[1]) else None
  }

  /** Only the first artist tag counts: an empty first one hides any later one. */
  lemma FirstArtistTagDecides(e: UiEvent, later: string)
    requires e.tags == [["artist", ""], ["artist", later]]
    ensures ArtistOf(e) == None
  {
  }

  /** The number of events credited to `a`. */
  function PlayCount(es: seq<UiEvent>, a: string): nat
    decreases |es|
  {
    if es == [] then 0
    else PlayCount(es[..|es| - 1], a) + (if ArtistOf(es[|es| - 1]) == Some(a) then 1 else 0)
  }

  /** The largest of 0 and the defined `created_at` values of the events credited to `a`. */
  function LastStreamed(es: seq<UiEvent>, a: string): int
    decreases |es|
  {
    if es == [] then 0
    else
      var e := es[|es| - 1];
      var before := LastStreamed(es[..|es| - 1], a);
      if ArtistOf(e) == Some(a) && e.createdAt.Some? then Max(before, e.createdAt.value) else before
  }

  /** The artists credited with at least one event. */
  function Artists(es: seq<UiEvent>): set<string>
    decreases |es|
  {
    if es == [] then {}
    else Artists(es[..|es| - 1]) + (match ArtistOf(es[|es| - 1]) case None => {} case Some(a) => {a})
  }

  /** An artist is credited exactly when some event names it. */
  lemma {:induction false} ArtistsMembers(es: seq<UiEvent>, a: string)
    ensures a in Artists(es) <==> exists k :: 0 <= k < |es| && ArtistOf(es[k]) == Some(a)
    decreases |es|
  {
    if es != [] {
      var init := es[..|es| - 1];
      ArtistsMembers(init, a);
      assert forall k :: 0 <= k < |init| ==> init[k] == es[k];
    }
  }

  /** The number of events credited to some artist. */
  function CountedEvents(es: seq<UiEvent>): nat
    decreases |es|
  {
    if es == [] then 0 else CountedEvents(es[..|es| - 1]) + (if ArtistOf(es[|es| - 1]).Some? then 1 else 0)
  }

  /** The row `groupEventsByArtist` reports for `a`. */
  function Summary(es: seq<UiEvent>, a: string): ArtistPlayCount {
    ArtistPlayCount(a, PlayCount(es, a), LastStreamed(es, a))
  }

  /** `lastStreamedAt` is the maximum of 0 and the artist's defined timestamps. */
  lemma {:induction false} LastStreamedIsMax(es: seq<UiEvent>, a: string)
    ensures LastStreamed(es, a) >= 0
    ensures forall k :: 0 <= k < |es| && ArtistOf(es[k]) == Some(a) && es[k].createdAt.Some? ==>
              LastStreamed(es, a) >= es[k].createdAt.value
    ensures LastStreamed(es, a) == 0 ||
            exists k :: 0 <= k < |es| && ArtistOf(es[k]) == Some(a) && es[k].createdAt == Some(LastStreamed(es, a))
    decreases |es|
  {
    if es != [] {
      var init := es[..|es| - 1];
      LastStreamedIsMax(init, a);
      assert forall k :: 0 <= k < |init| ==> init[k] == es[k];
    }
  }

  /** An artist that no event credits has no plays and no timestamp. */
  lemma {:induction false} UnseenIsZero(es: seq<UiEvent>, a: string)
    requires a !in Artists(es)
    ensures PlayCount(es, a) == 0 && LastStreamed(es, a) == 0
    decreases |es|
  {
    if es != [] {
      var init := es[..|es| - 1];
      assert forall k :: 0 <= k < |init| ==> init[k] == es[k];
      UnseenIsZero(init, a);
    }
  }

  /** Every listed artist is credited, once, with its summary. */
  ghost predicate SummaryRows(es: seq<UiEvent>, r: seq<ArtistPlayCount>) {
    (forall k :: 0 <= k < |r| ==> r[k].artist in Artists(es) && r[k] == Summary(es, r[k].artist)) &&
    (forall j, k :: 0 <= j < k < |r| ==> r[j].artist != r[k].artist)
  }

  function ArtistNames(r: seq<ArtistPlayCount>): (names: seq<string>)
    ensures |names| == |r| && forall k :: 0 <= k < |r| ==> names[k] == r[k].artist
  {
    if r == [] then [] else [r[0].artist] + ArtistNames(r[1..])
  }

  /** The sum of `playCount` over the rows. */
  function TotalPlays(r: seq<ArtistPlayCount>): int
    decreases |r|
  {
    if r == [] then 0 else r[0].playCount + TotalPlays(r[1..])
  }

  /** The sum of `PlayCount(es, a)` over the names. */
  function SumPlays(es: seq<UiEvent>, names: seq<string>): int
    decreases |names|
  {
    if names == [] then 0 else PlayCount(es, names[0]) + SumPlays(es, names[1..])
  }

  lemma {:induction false} SumPlaysEmpty(names: seq<string>)
    ensures SumPlays([], names) == 0
    decreases |names|
  {
    if names != [] { SumPlaysEmpty(names[1..]); }
  }

  /** One more event adds one play to the names holding its artist once, none otherwise. */
  lemma {:induction false} SumPlaysStep(es: seq<UiEvent>, e: UiEvent, names: seq<string>)
    requires Distinct(names)
    ensures SumPlays(es + [e], names) ==
            SumPlays(es, names) + (if ArtistOf(e).Some? && ArtistOf(e).value in names then 1 else 0)
    decreases |names|
  {
    assert (es + [e])[..|es|] == es;
    if names != [] {
      assert Distinct(names[1..]) by {
        forall i, j | 0 <= i < j < |names[1..]| ensures names[1..][i] != names[1..][j] {
          assert names[1..][i] == names[i + 1] && names[1..][j] == names[j + 1];
        }
      }
      SumPlaysStep(es, e, names[1..]);
      if ArtistOf(e) == Some(names[0]) {
        assert names[0] !in names[1..] by {
          forall k | 0 <= k < |names[1..]| ensures names[1..][k] != names[0] { assert names[1..][k] == names[k + 1]; }
        }
      }
      assert ArtistOf(e).Some? && ArtistOf(e).value in names <==>
             ArtistOf(e) == Some(names[0]) || (ArtistOf(e).Some? && ArtistOf(e).value in names[1..]);
    }
  }

  /** Distinct names covering every credited artist add up to the number of credited events. */
  lemma {:induction false} SumPlaysCounts(es: seq<UiEvent>, names: seq<string>)
    requires Distinct(names) && forall a :: a in Artists(es) ==> a in names
    ensures SumPlays(es, names) == CountedEvents(es)
    decreases |es|
  {
    if es == [] {
      SumPlaysEmpty(names);
    } else {
      var init := es[..|es| - 1];
      var e := es[|es| - 1];
      assert init + [e] == es;
      SumPlaysCounts(init, names);
      SumPlaysStep(init, e, names);
      if ArtistOf(e).Some? {
        assert ArtistOf(es[|es| - 1]) == Some(ArtistOf(e).value);
      }
    }
  }

  lemma {:induction false} TotalPlaysOfRows(es: seq<UiEvent>, r: seq<ArtistPlayCount>)
    requires forall k :: 0 <= k < |r| ==> r[k].playCount == PlayCount(es, r[k].artist)
    ensures TotalPlays(r) == SumPlays(es, ArtistNames(r))
    decreases |r|
  {
    if r != [] {
      assert ArtistNames(r)[1..] == ArtistNames(r[1..]);
      TotalPlaysOfRows(es, r[1..]);
    }
  }

  /** The play counts of a complete summary add up to the number of credited events. */
  lemma PlayCountsAddUp(es: seq<UiEvent>, r: seq<ArtistPlayCount>)
    requires SummaryRows(es, r) && Artists(es) <= Listed(r)
    ensures TotalPlays(r) == CountedEvents(es)
  {
    var names := ArtistNames(r);
    TotalPlaysOfRows(es, r);
    forall a | a in Artists(es) ensures a in names {
      var x :| x in r && x.artist == a;
      var k :| 0 <= k < |r| && r[k] == x;
      assert names[k] == a;
    }
    SumPlaysCounts(es, names);
  }

  /** The artists a list of rows names. */
  function Listed(r: seq<ArtistPlayCount>): set<string> {
    set x | x in r :: x.artist
  }

  /** Rows with distinct artists stay so under any reordering. */
  lemma ReorderedRows(es: seq<UiEvent>, s: seq<ArtistPlayCount>, r: seq<ArtistPlayCount>)
    requires SummaryRows(es, s) && multiset(r) == multiset(s)
    ensures SummaryRows(es, r)
    ensures Listed(r) == Listed(s)
  {
    assert Distinct(s);
    DistinctPermutation(s, r);
    forall k | 0 <= k < |r| ensures r[k].artist in Artists(es) && r[k] == Summary(es, r[k].artist) {
      assert r[k] in multiset(s);
    }
    assert forall x :: x in r <==> x in s by {
      forall x ensures x in r <==> x in s { assert x in r <==> x in multiset(r); }
    }
  }

  /** The `forEach` pass of `groupEventsByArtist`: fills the `artistData`
      dictionary, remembering the order in which its keys were added. */
  method TallyArtists(events: seq<UiEvent>) returns (artistData: map<string, ArtistPlayCount>, keys: seq<string>)
    ensures Tally(events, artistData, keys)
  {
    artistData := map[];
    keys := [];
    for i := 0 to |events|
      invariant Tally(events[..i], artistData, keys)
    {
      assert events[..i + 1] == events[..i] + [events[i]];
      artistData, keys := CountEvent(events[..i], artistData, keys, events[i]);
    }
    assert events[..|events|] == events;
  }

  /** The body of the loop in `groupEventsByArtist`: the row of the event's
      artist is created at zero when missing, then counted and dated. */
  method CountEvent(ghost es: seq<UiEvent>, artistData: map<string, ArtistPlayCount>, keys: seq<string>, e: UiEvent)
    returns (artistData': map<string, ArtistPlayCount>, keys': seq<string>)
    requires Tally(es, artistData, keys)
    ensures Tally(es + [e], artistData', keys')
  {
    artistData', keys' := artistData, keys;
    var artist := ArtistOf(e);
    if artist.Some? {
      var a := artist.value;
      if a !in artistData' {
        UnseenIsZero(es, a);
        artistData' := artistData'[a := ArtistPlayCount(a, 0, 0)];
        keys' := keys' + [a];
      }
      assert artistData'[a] == Summary(es, a);
      var d := artistData'[a];
      d := d.(playCount := d.playCount + 1);
      if e.createdAt.Some? {
        d := d.(lastStreamedAt := Max(d.lastStreamedAt, e.createdAt.value));
      }
      TallyStep(es, e);
      assert d == Summary(es + [e], a);
      artistData' := artistData'[a := d];
      assert artistData' == artistData[a := d];
      TallyCredited(es, e, artistData, keys);
    } else {
      TallyUncredited(es, e, artistData, keys);
    }
  }

  /** An event that credits an artist updates that artist's summary, adding it
      to the keys when it is new. */
  lemma TallyCredited(es: seq<UiEvent>, e: UiEvent, artistData: map<string, ArtistPlayCount>, keys: seq<string>)
    requires Tally(es, artistData, keys) && ArtistOf(e).Some?
    ensures Tally(es + [e], artistData[ArtistOf(e).value := Summary(es + [e], ArtistOf(e).value)],
                  if ArtistOf(e).value in artistData then keys else keys + [ArtistOf(e).value])
  {
    TallyStep(es, e);
  }

  /** An event that credits no artist changes nothing. */
  lemma TallyUncredited(es: seq<UiEvent>, e: UiEvent, artistData: map<string, ArtistPlayCount>, keys: seq<string>)
    requires Tally(es, artistData, keys) && ArtistOf(e).None?
    ensures Tally(es + [e], artistData, keys)
  {
    TallyStep(es, e);
  }

  /** `groupEventsByArtist`: one row per credited artist with its play count
      and newest timestamp, ordered by play count, most played first. */
  method GroupEventsByArtist(events: seq<UiEvent>) returns (r: seq<ArtistPlayCount>)
    ensures SortedDesc(r, PlayCountOf)
    ensures SummaryRows(events, r)
    ensures Listed(r) == Artists(events)
    ensures TotalPlays(r) == CountedEvents(events)
  {
    var artistData, keys := TallyArtists(events);
    var values: seq<ArtistPlayCount> := [];
    for k := 0 to |keys|
      invariant |values| == k
      invariant forall j :: 0 <= j < k ==> values[j] == artistData[keys[j]] && values[j].artist == keys[j]
    {
      values := values + [artistData[keys[k]]];
    }
    r := SortDesc(values, PlayCountOf);
    TallyRows(events, artistData, keys, values);
    ReorderedRows(events, values, r);
    PlayCountsAddUp(events, r);
  }

  /** The rows `Object.values` gives for a finished tally list every credited
      artist once, with its summary. */
  lemma TallyRows(es: seq<UiEvent>, artistData: map<string, ArtistPlayCount>, keys: seq<string>, values: seq<ArtistPlayCount>)
    requires Tally(es, artistData, keys) && |values| == |keys|
    requires forall j :: 0 <= j < |keys| ==> values[j] == artistData[keys[j]] && values[j].artist == keys[j]
    ensures SummaryRows(es, values)
    ensures Listed(values) == Artists(es)
  {
    forall a | a in Artists(es) ensures a in Listed(values) {
      var k :| 0 <= k < |keys| && keys[k] == a;
      assert values[k] in values;
    }
  }

  /** The state of the `groupEventsByArtist` loop after the events `es`: one
      entry per credited artist holding its summary, and the keys in insertion order. */
  ghost predicate Tally(es: seq<UiEvent>, artistData: map<string, ArtistPlayCount>, keys: seq<string>) {
    artistData.Keys == Artists(es) &&
    (forall a :: a in Artists(es) <==> a in keys) &&
    Distinct(keys) &&
    (forall a :: a in artistData ==> artistData[a] == Summary(es, a))
  }

  /** How one more event changes the summaries and the credited artists. */
  lemma TallyStep(es: seq<UiEvent>, e: UiEvent)
    ensures Artists(es + [e]) == Artists(es) + (match ArtistOf(e) case None => {} case Some(a) => {a})
    ensures forall x :: ArtistOf(e) != Some(x) ==> Summary(es + [e], x) == Summary(es, x)
    ensures ArtistOf(e).Some? && e.createdAt.None? ==>
              Summary(es + [e], ArtistOf(e).value) == Summary(es, ArtistOf(e).value).(playCount := PlayCount(es, ArtistOf(e).value) + 1)
    ensures ArtistOf(e).Some? && e.createdAt.Some? ==>
              Summary(es + [e], ArtistOf(e).value) ==
              ArtistPlayCount(ArtistOf(e).value, PlayCount(es, ArtistOf(e).value) + 1, Max(LastStreamed(es, ArtistOf(e).value), e.createdAt.value))
  {
    assert (es + [e])[..|es|] == es;
  }

  function CreatedAtOrZero(e: UiEvent): int { e.createdAt.GetOr(0) }

  /** `sortedEvents`: a sorted copy, newest first, an undefined `created_at` counting as 0. */
  function SortedEvents(events: seq<UiEvent>): (r: seq<UiEvent>)
    ensures SortedDesc(r, CreatedAtOrZero)
    ensures multiset(r) == multiset(events)
  {
    SortDesc(events, CreatedAtOrZero)
  }

  /** The credited artists of `es` in order of first appearance. */
  function FirstSeen(es: seq<UiEvent>): (r: seq<string>)
    decreases |es|
  {
    if es == [] then []
    else
      var before := FirstSeen(es[..|es| - 1]);
      match ArtistOf(es[|es| - 1])
      case None => before
      case Some(a) => if a in before then before else before + [a]
  }

  /** First-seen order lists each credited artist once, and nothing else. */
  lemma {:induction false} FirstSeenArtists(es: seq<UiEvent>)
    ensures Distinct(FirstSeen(es))
    ensures forall a :: a in FirstSeen(es) <==> a in Artists(es)
    decreases |es|
  {
    if es != [] {
      var init := es[..|es| - 1];
      FirstSeenArtists(init);
      assert forall k :: 0 <= k < |init| ==> init[k] == es[k];
    }
  }

  /** Later events only append: the artists first seen in a prefix keep their places. */
  lemma {:induction false} FirstSeenPrefix(es: seq<UiEvent>, n: nat)
    requires n <= |es|
    ensures FirstSeen(es[..n]) <= FirstSeen(es)
    decreases |es|
  {
    if n < |es| {
      var init := es[..|es| - 1];
      assert init[..n] == es[..n];
      FirstSeenPrefix(init, n);
    } else {
      assert es[..n] == es;
    }
  }

  /** `recentlyPlayedArtists`: the distinct credited artists of the first
      100 events, in first-seen order (a JS `Set` keeps insertion order),
      each with zero counts. */
  method RecentlyPlayedArtists(events: seq<UiEvent>) returns (r: seq<ArtistPlayCount>)
    ensures |r| == |FirstSeen(events[..Min(100, |events|)])|
    ensures forall k :: 0 <= k < |r| ==> r[k] == ArtistPlayCount(FirstSeen(events[..Min(100, |events|)])[k], 0, 0)
  {
    var recentEvents := events[..Min(100, |events|)];
    var recentArtists: seq<string> := [];
    for i := 0 to |recentEvents|
      invariant recentArtists == FirstSeen(recentEvents[..i])
    {
      assert recentEvents[..i + 1][..i] == recentEvents[..i];
      var artist := ArtistOf(recentEvents[i]);
      if artist.Some? && artist.value !in recentArtists {
        recentArtists := recentArtists + [artist.value];
      }
    }
    assert recentEvents[..|recentEvents|] == recentEvents;
    r := [];
    for k := 0 to |recentArtists|
      invariant |r| == k
      invariant forall j :: 0 <= j < k ==> r[j] == ArtistPlayCount(recentArtists[j], 0, 0)
    {
      r := r + [ArtistPlayCount(recentArtists[k], 0, 0)];
    }
  }
}
