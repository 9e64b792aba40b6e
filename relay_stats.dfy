/** The scrobbler relay's statistics table and its small helpers: the
    event acceptance rule, the tag lookup used when counting, and the
    truncation and size formatting used by its status pages. */
module RelayStats {
  import opened Wrappers
  import opened NostrEvent
  import opened CmusNostr
  import opened GoStrings

  /** Go's map read: a missing key reads as zero. */
  function Get(m: map<string, int>, k: string): int {
    if k in m then m[k] else 0
  }

  /** `m[k]++` on a Go map: `k` now counts one more, every other key is untouched. */
  function Inc(m: map<string, int>, k: string): (r: map<string, int>)
    ensures r.Keys == m.Keys + {k}
    ensures r[k] == Get(m, k) + 1
    ensures forall j :: j in m && j != k ==> r[j] == m[j]
  {
    m[k := Get(m, k) + 1]
  }

  /** The sum of the counters of a map. */
  ghost function Sum(m: map<string, int>): int
    decreases |m|
  {
    if m == map[] then 0
    else
      var k :| k in m;
      m[k] + Sum(m - {k})
  }

  /** The sum does not depend on which key is taken out first. */
  lemma {:induction false} SumRemove(m: map<string, int>, k: string)
    requires k in m
    ensures Sum(m) == m[k] + Sum(m - {k})
    decreases |m|
  {
    var j :| j in m && Sum(m) == m[j] + Sum(m - {j});
    if j != k {
      SumRemove(m - {j}, k);
      SumRemove(m - {k}, j);
      assert m - {j} - {k} == m - {k} - {j};
    }
  }

  /** Incrementing one counter increases the sum by exactly one. */
  lemma SumInc(m: map<string, int>, k: string)
    ensures Sum(Inc(m, k)) == Sum(m) + 1
  {
    var r := Inc(m, k);
    SumRemove(r, k);
    if k in m {
      SumRemove(m, k);
      assert r - {k} == m - {k};
    } else {
      assert r - {k} == m;
    }
  }

  /** All counters of a map are positive. */
  predicate Positive(m: map<string, int>) {
    forall k :: k in m ==> m[k] >= 1
  }

  /** `RelayStats`: one relay's counters. */
  datatype RelayStats = RelayStats(
    url: string,
    totalScrobbles: int,
    artists: map<string, int>,
    songs: map<string, int>,
    userScrobbles: map<string, int>)

  /** The entry `AddScrobble` creates for a relay it has not seen. */
  function Fresh(url: string): RelayStats {
    RelayStats(url, 0, map[], map[], map[])
  }

  /** Every scrobble counted is counted once in the total, once per artist,
      once per song and once per user. */
  ghost predicate Consistent(r: RelayStats) {
    Sum(r.artists) == r.totalScrobbles && Sum(r.songs) == r.totalScrobbles &&
    Sum(r.userScrobbles) == r.totalScrobbles &&
    Positive(r.artists) && Positive(r.songs) && Positive(r.userScrobbles)
  }

  /** One relay's counters after one more scrobble. */
  function Counted(r: RelayStats, pubkey: string, artist: string, track: string): (c: RelayStats)
    ensures c.url == r.url && c.totalScrobbles == r.totalScrobbles + 1
    ensures c.artists == Inc(r.artists, artist) && c.songs == Inc(r.songs, track)
    ensures c.userScrobbles == Inc(r.userScrobbles, pubkey)
  {
    r.(totalScrobbles := r.totalScrobbles + 1, artists := Inc(r.artists, artist),
       songs := Inc(r.songs, track), userScrobbles := Inc(r.userScrobbles, pubkey))
  }

  /** A new entry is consistent, and counting a scrobble keeps an entry consistent. */
  lemma CountedConsistent(r: RelayStats, pubkey: string, artist: string, track: string)
    requires Consistent(r)
    ensures Consistent(Counted(r, pubkey, artist, track))
  {
    SumInc(r.artists, artist);
    SumInc(r.songs, track);
    SumInc(r.userScrobbles, pubkey);
  }

  lemma FreshConsistent(url: string)
    ensures Consistent(Fresh(url))
  {
  }

  /** `ScrobbleStats`: the per-relay table (the lock is not modelled). */
  class ScrobbleStats {
    var relays: map<string, RelayStats>

    /** Each entry is filed under its own URL and is consistent. */
    ghost predicate Valid()
      reads this
    {
      forall u :: u in relays ==> relays[u].url == u && Consistent(relays[u])
    }

    /** `NewScrobbleStats`. */
    constructor ()
      ensures relays == map[] && Valid()
    {
      relays := map[];
    }

    /** `AddScrobble`: counts one scrobble of `artist`/`track` by `pubkey`
        seen on `relayURL`, creating the relay's entry on first sight. */
    method AddScrobble(relayURL: string, pubkey: string, artist: string, track: string)
      requires Valid()
      modifies this
      ensures Valid()
      ensures relays.Keys == old(relays).Keys + {relayURL}
      ensures forall u :: u in old(relays) && u != relayURL ==> relays[u] == old(relays)[u]
      ensures relayURL !in old(relays) ==> relays[relayURL] == Counted(Fresh(relayURL), pubkey, artist, track)
      ensures relayURL in old(relays) ==> relays[relayURL] == Counted(old(relays)[relayURL], pubkey, artist, track)
    {
      if relayURL !in relays {
        relays := relays[relayURL := Fresh(relayURL)];
      }
      var relay := relays[relayURL];
      CountedConsistent(relay, pubkey, artist, track);
      relay := relay.(totalScrobbles := relay.totalScrobbles + 1);
      relay := relay.(artists := Inc(relay.artists, artist));
      relay := relay.(songs := Inc(relay.songs, track));
      relay := relay.(userScrobbles := Inc(relay.userScrobbles, pubkey));
      relays := relays[relayURL := relay];
    }
  }

  /** The relay's `RejectEvent` rule: anything but a scrobble is refused, with a fixed reason. */
  function RejectEvent(ev: Event): (r: (bool, string))
    ensures r.0 <==> ev.kind != ScrobbleKind
    ensures r.0 ==> r.1 == "Only kind 2002 (scrobble) events are allowed"
    ensures !r.0 ==> r.1 == ""
  {
    if ev.kind != 2002 then (true, "Only kind 2002 (scrobble) events are allowed") else (false, "")
  }

  /** The relay accepts every event the cmus scrobbler creates. */
  lemma AcceptsCmusScrobbles(n: NostrClient, s: ScrobbleEvent, now: int)
    ensures RejectEvent(n.CreateScrobbleEvent(s, now).value) == (false, "")
  {
  }

  /** A tag lookup that matches `tags[k]` for `key`. */
  predicate TagMatches(t: Tag, key: string) { |t| > 1 && t[0] == key }

  /** The value of the first tag with at least two elements whose key is `key`, or "". */
  function FirstTagValue(tags: seq<Tag>, key: string): (r: string)
    ensures (forall k :: 0 <= k < |tags| ==> !TagMatches(tags[k], key)) ==> r == ""
    ensures forall k :: (0 <= k < |tags| && TagMatches(tags[k], key) &&
                         (forall j :: 0 <= j < k ==> !TagMatches(tags[j], key))) ==> r == tags[k][1]
    decreases |tags|
  {
    if tags == [] then ""
    else if TagMatches(tags[0], key) then tags[0][1]
    else
      assert forall k :: 1 <= k < |tags| ==> tags[1..][k - 1] == tags[k];
      FirstTagValue(tags[1..], key)
  }

  /** `getTagValue` as written: it reads `tag[0]` before checking `len(tag) > 1`,
      so a tag with no elements met before a match aborts with an index panic,
      reported here as `Err`. */
  function GetTagValueAsWritten(tags: seq<Tag>, key: string): (r: Result<string, string>)
    ensures r.Err? <==> exists k :: 0 <= k < |tags| && |tags[k]| == 0 &&
                                    (forall j :: 0 <= j < k ==> !TagMatches(tags[j], key))
    ensures r.Ok? ==> r.value == FirstTagValue(tags, key)
    decreases |tags|
  {
    if tags == [] then Ok("")
    else if |tags[0]| == 0 then Err("index out of range")
    else if tags[0][0] == key && |tags[0]| > 1 then Ok(tags[0][1])
    else
      var rest := GetTagValueAsWritten(tags[1..], key);
      assert forall k :: 1 <= k < |tags| ==> tags[1..][k - 1] == tags[k];
      assert rest.Err? ==> exists k :: 1 <= k < |tags| && |tags[k]| == 0 &&
                                        (forall j :: 0 <= j < k ==> !TagMatches(tags[j], key)) by {
        if rest.Err? {
          var k :| 0 <= k < |tags[1..]| && |tags[1..][k]| == 0 &&
                   (forall j :: 0 <= j < k ==> !TagMatches(tags[1..][j], key));
          assert forall j :: 0 <= j < k + 1 ==> !TagMatches(tags[j], key) by {
            forall j | 0 <= j < k + 1 ensures !TagMatches(tags[j], key) {
              if j > 0 { assert tags[j] == tags[1..][j - 1]; }
            }
          }
        }
      }
      rest
  }

  /** An event whose first tag is empty makes the as-written lookup panic,
      although it names an artist. */
  lemma EmptyTagPanics()
    ensures GetTagValueAsWritten([[], ["artist", "Muse"]], "artist").Err?
    ensures FirstTagValue([[], ["artist", "Muse"]], "artist") == "Muse"
  {
  }

  /** `getTagValue`, with the length checked before the key is read. */
  method GetTagValue(tags: seq<Tag>, key: string) returns (r: string)
    ensures r == FirstTagValue(tags, key)
  {
    var i := 0;
    while i < |tags|
      invariant 0 <= i <= |tags|
      invariant forall j :: 0 <= j < i ==> !TagMatches(tags[j], key)
    {
      var tag := tags[i];
      if |tag| > 1 && tag[0] == key {
        return tag[1];
      }
      i := i + 1;
    }
    return "";
  }

  /** The relay counts a cmus scrobble under the artist and track it names. */
  lemma CountsCmusScrobble(n: NostrClient, s: ScrobbleEvent, now: int)
    ensures FirstTagValue(n.CreateScrobbleEvent(s, now).value.tags, "artist") == s.artist
    ensures FirstTagValue(n.CreateScrobbleEvent(s, now).value.tags, "track") == s.track
  {
  }

  /** The `truncate` template helper: strings of more than ten characters keep
      their first ten and last eight characters around an ellipsis. */
  function Truncate(s: string): (r: string)
    ensures |s| <= 10 ==> r == s
    ensures |s| > 10 ==> |r| == 21 && r[..10] == s[..10] && r[10..13] == "..." && r[13..] == s[|s| - 8..]
  {
    if |s| > 10 then s[..10] + "..." + s[|s| - 8..] else s
  }

  /** Truncating twice is truncating once. */
  lemma TruncateIdempotent(s: string)
    ensures Truncate(Truncate(s)) == Truncate(s)
  {
    if |s| > 10 {
      var r := Truncate(s);
      assert r[..10] + "..." + r[|r| - 8..] == r;
    }
  }

  function Pow(b: nat, e: nat): (r: nat)
    ensures b >= 1 ==> r >= 1
    decreases e
  {
    if e == 0 then 1 else b * Pow(b, e - 1)
  }

  /** The unit letters of `formatFileSize`, from kibi to exbi. */
  const Units: string := "KMGTPE"

  /** What `formatFileSize` prints: a plain byte count, or `size / div` in the unit `Units[exp]`. */
  datatype FileSize = Bytes(n: int) | Scaled(size: int, div: int, exp: nat, unit: char)

  lemma DivUnique(a: int, d: int, q: int, rem: int)
    requires d > 0 && a == d * q + rem && 0 <= rem < d
    ensures a / d == q
  {
    var q', r' := a / d, a % d;
    assert d * (q - q') == r' - rem;
    if q - q' >= 1 {
      MulAtLeast(d, q - q');
    } else if q' - q >= 1 {
      MulAtLeast(d, q' - q);
    }
  }

  lemma MulAtLeast(d: int, x: int)
    requires d > 0 && x >= 1
    ensures d * x >= d
  {
  }

  lemma MulBelow(d: int, r: int)
    requires d > 0 && 0 <= r < 1024
    ensures d * r + d <= d * 1024
  {
  }

  /** Dividing by `d` and then by 1024 is dividing by `d * 1024`. */
  lemma DivDiv(a: int, d: int)
    requires a >= 0 && d > 0
    ensures a / d / 1024 == a / (d * 1024)
  {
    var q1, r1 := a / d, a % d;
    var q, r2 := q1 / 1024, q1 % 1024;
    assert a == d * q1 + r1;
    assert q1 == 1024 * q + r2;
    assert d * q1 == (d * 1024) * q + d * r2;
    MulBelow(d, r2);
    DivUnique(a, d * 1024, q, d * r2 + r1);
  }

  /** A quotient below 1024 bounds the dividend. */
  lemma DivBelow(a: int, d: int)
    requires a >= 0 && d > 0 && a / d < 1024
    ensures a < d * 1024
  {
    assert a == d * (a / d) + a % d;
    MulBelow(d, a / d);
  }

  /** 1024 to the 7th power exceeds the largest int64, so the unit index stays below 6. */
  lemma PowBound()
    ensures Pow(1024, 7) > MaxInt
  {
    assert Pow(1024, 7) == 0x40_0000_0000_0000_0000;
  }

  /** `formatFileSize` with the float formatting left out: the unit is the
      largest power of 1024 not above `size`. */
  method FormatFileSize(size: int) returns (r: FileSize)
    requires MinInt <= size <= MaxInt
    ensures size < 1024 <==> r == Bytes(size)
    ensures r.Scaled? ==> r.size == size && r.exp <= 5 && r.div == Pow(1024, r.exp + 1) &&
                          r.div <= size < r.div * 1024 && r.unit == Units[r.exp]
  {
    if size < 1024 {
      return Bytes(size);
    }
    var div, exp := 1024, 0;
    var n := size / 1024;
    while n >= 1024
      invariant LoopState(size, div, exp, n)
      decreases n
    {
      NextUnit(size, div, exp, n);
      div := div * 1024;
      exp := exp + 1;
      n := n / 1024;
    }
    LastUnit(size, div, exp, n);
    r := Scaled(size, div, exp, Units[exp]);
  }

  /** The loop state of `formatFileSize`: `div` is 1024 to the `exp + 1`, not above `size`, and `n` is `size / div`. */
  predicate LoopState(size: int, div: int, exp: nat, n: int) {
    div == Pow(1024, exp + 1) && 0 < div <= size && n == size / div
  }

  lemma NextUnit(size: int, div: int, exp: nat, n: int)
    requires LoopState(size, div, exp, n) && n >= 1024
    ensures LoopState(size, div * 1024, exp + 1, n / 1024) && n / 1024 < n
  {
    DivDiv(size, div);
    assert size == div * n + size % div;
    MulAtLeast(div, n / 1024);
    assert div * n >= div * 1024 by { MulMono(div, 1024, n); }
  }

  lemma MulMono(d: int, x: int, y: int)
    requires d > 0 && x <= y
    ensures d * x <= d * y
  {
  }

  lemma LastUnit(size: int, div: int, exp: nat, n: int)
    requires LoopState(size, div, exp, n) && n < 1024 && size <= MaxInt
    ensures exp <= 5 && size < div * 1024
  {
    DivBelow(size, div);
    ExpBound(size, exp);
  }

  lemma ExpBound(size: int, exp: nat)
    requires Pow(1024, exp + 1) <= size <= MaxInt
    ensures exp <= 5
  {
    if exp > 5 {
      PowMono(exp + 1);
      PowBound();
    }
  }

  lemma {:induction false} PowMono(e: nat)
    requires e >= 7
    ensures Pow(1024, e) >= Pow(1024, 7)
    decreases e
  {
    if e > 7 { PowMono(e - 1); }
  }
}
