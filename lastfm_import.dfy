/** The Last.fm history importer: it pages through a user's Last.fm
    scrobbles and publishes each one whose timestamp the relay does not
    already hold an event for. */
module LastfmImport {
  import opened Wrappers
  import opened NostrEvent
  import opened GoStrings
  import opened History

  /** One entry of Last.fm's `user.getrecenttracks`; `date` is absent for the
      track that is playing right now. */
  datatype LastfmScrobble = LastfmScrobble(name: string, artist: string, album: string, mbid: string, date: Option<string>)

  /** The event the importer publishes; its `created_at` is `None` when
      `parseInt` gives NaN. */
  datatype ImportEvent = ImportEvent(kind: int, content: string, createdAt: Option<int>, tags: seq<seq<string>>)

  /** The length of the longest run of decimal digits at the front of `s`. */
  function DigitPrefix(s: string): (n: nat)
    ensures n <= |s| && AllDigits(s[..n]) && (n < |s| ==> !IsDigit(s[n]))
    decreases |s|
  {
    if s == [] || !IsDigit(s[0]) then 0
    else
      var n := 1 + DigitPrefix(s[1..]);
      assert s[..n] == [s[0]] + s[1..][..n - 1];
      n
  }

  /** JavaScript's `parseInt(s)` in base 10: an optional sign and the digits
      that follow it up to the first non-digit; NaN (`None`) without any. */
  function ParseInt(s: string): (r: Option<int>)
    ensures AllDigits(s) && s != [] ==> r == Some(DigitsValue(s))
  {
    var signed := s != [] && (s[0] == '+' || s[0] == '-');
    var rest := if signed then s[1..] else s;
    var n := DigitPrefix(rest);
    if n == 0 then None
    else
      var v: int := DigitsValue(rest[..n]);
      assert AllDigits(s) && s != [] ==> rest[..n] == s;
      Some(if signed && s[0] == '-' then -v else v)
  }

  /** `scrobbleToNostrEvent`: reading `scrobble.date.uts` of a scrobble
      without a date throws a TypeError. */
  function ScrobbleToNostrEvent(s: LastfmScrobble): (r: Result<ImportEvent, string>)
    ensures r.Err? <==> s.date.None?
    ensures r.Ok? ==> r.value.kind == ScrobbleKind && r.value.content == s.name + " by " + s.artist
    ensures r.Ok? ==> r.value.createdAt == ParseInt(s.date.value)
    ensures r.Ok? ==> r.value.tags == [["i", "mbid:recording:" + s.mbid], ["artist", s.artist], ["album", s.album], ["track", s.name]]
  {
    match s.date
    case None => Err("TypeError")
    case Some(uts) =>
      Ok(ImportEvent(2002, s.name + " by " + s.artist, ParseInt(uts),
        [["i", "mbid:recording:" + s.mbid], ["artist", s.artist], ["album", s.album], ["track", s.name]]))
  }

  /** `getExistingScrobbles`: the `created_at` values of what the relay returned. */
  function ExistingScrobbles(answer: seq<Event>): (r: set<int>)
    ensures forall t :: t in r <==> exists k :: 0 <= k < |answer| && answer[k].createdAt == t
  {
    set k | 0 <= k < |answer| :: answer[k].createdAt
  }

  /** When the relay honours the filter, every existing timestamp is that of one of the user's scrobbles. */
  lemma ExistingAreOwnScrobbles(answer: seq<Event>, pubkey: string, t: int)
    requires forall k :: 0 <= k < |answer| ==> Matches(ScrobbleFilter(pubkey, 0), answer[k])
    requires t in ExistingScrobbles(answer)
    ensures exists k :: 0 <= k < |answer| && answer[k].createdAt == t && answer[k].kind == ScrobbleKind && answer[k].pubkey == pubkey
  {
    var k :| 0 <= k < |answer| && answer[k].createdAt == t;
    assert Matches(ScrobbleFilter(pubkey, 0), answer[k]);
  }

  /** The timestamp the dedup check compares; NaN is never in the set. */
  predicate IsNew(existing: set<int>, s: LastfmScrobble)
    requires s.date.Some?
  {
    var t := ParseInt(s.date.value);
    t.None? || t.value !in existing
  }

  /** The events the import publishes for `ss`, skipping scrobbles without a date. */
  function Publishable(existing: set<int>, ss: seq<LastfmScrobble>): seq<ImportEvent>
    decreases |ss|
  {
    if ss == [] then []
    else
      var s := ss[|ss| - 1];
      Publishable(existing, ss[..|ss| - 1]) +
      (if s.date.Some? && IsNew(existing, s) then [ScrobbleToNostrEvent(s).value] else [])
  }

  /** The page Last.fm returns for page number `page` (counting from 1); past the last page it is empty. */
  function PageAt(pages: seq<seq<LastfmScrobble>>, page: nat): seq<LastfmScrobble> {
    if 1 <= page <= |pages| then pages[page - 1] else []
  }

  /** The index of the first empty page, or the number of pages. */
  function FirstEmpty(pages: seq<seq<LastfmScrobble>>): (n: nat)
    ensures n <= |pages| && (n < |pages| ==> pages[n] == []) && forall k :: 0 <= k < n ==> pages[k] != []
    decreases |pages|
  {
    if pages == [] || pages[0] == [] then 0
    else
      var n := 1 + FirstEmpty(pages[1..]);
      assert forall k :: 1 <= k < |pages| ==> pages[1..][k - 1] == pages[k];
      n
  }

  function Concat(pages: seq<seq<LastfmScrobble>>): seq<LastfmScrobble>
    decreases |pages|
  {
    if pages == [] then [] else Concat(pages[..|pages| - 1]) + pages[|pages| - 1]
  }

  /** The scrobbles the import reads: those of the pages before the first empty one. */
  function ReadScrobbles(pages: seq<seq<LastfmScrobble>>): seq<LastfmScrobble> {
    Concat(pages[..FirstEmpty(pages)])
  }

  predicate Dated(ss: seq<LastfmScrobble>) { forall k :: 0 <= k < |ss| ==> ss[k].date.Some? }

  /** The number of leading scrobbles that carry a date. */
  function DatedPrefix(ss: seq<LastfmScrobble>): (n: nat)
    ensures n <= |ss| && Dated(ss[..n]) && (n < |ss| ==> ss[n].date.None?)
    decreases |ss|
  {
    if ss == [] || ss[0].date.None? then 0
    else
      var n := 1 + DatedPrefix(ss[1..]);
      assert forall k :: 1 <= k < n ==> ss[..n][k] == ss[1..][..n - 1][k - 1];
      n
  }

  lemma PublishableAppend(existing: set<int>, ss: seq<LastfmScrobble>, s: LastfmScrobble)
    ensures Publishable(existing, ss + [s]) ==
            Publishable(existing, ss) + (if s.date.Some? && IsNew(existing, s) then [ScrobbleToNostrEvent(s).value] else [])
  {
    assert (ss + [s])[..|ss|] == ss;
  }

  /** The `for` loop over one page in `main` as written: the first scrobble
      without a date throws, after the ones before it were handled. */
  method PublishPageAsWritten(existing: set<int>, scrobbles: seq<LastfmScrobble>)
    returns (published: seq<ImportEvent>, failed: bool)
    ensures !failed <==> Dated(scrobbles)
    ensures published == Publishable(existing, scrobbles[..DatedPrefix(scrobbles)])
  {
    published := [];
    for i := 0 to |scrobbles|
      invariant Dated(scrobbles[..i])
      invariant published == Publishable(existing, scrobbles[..i])
    {
      var scrobble := scrobbles[i];
      if scrobble.date.None? {
        DatedPrefixAt(scrobbles, i);
        return published, true;
      }
      var timestamp := ParseInt(scrobble.date.value);
      DatedStep(scrobbles, i);
      PublishableAppend(existing, scrobbles[..i], scrobble);
      if timestamp.None? || timestamp.value !in existing {
        var event := ScrobbleToNostrEvent(scrobble);
        published := published + [event.value];
      }
    }
    assert scrobbles[..|scrobbles|] == scrobbles;
    failed := false;
  }

  /** One more dated scrobble keeps the prefix dated. */
  lemma DatedStep(ss: seq<LastfmScrobble>, i: nat)
    requires i < |ss| && Dated(ss[..i]) && ss[i].date.Some?
    ensures Dated(ss[..i + 1]) && ss[..i + 1] == ss[..i] + [ss[i]]
  {
    assert ss[..i + 1] == ss[..i] + [ss[i]];
  }

  /** `main` as written: pages from 1 until an empty page, publishing every
      scrobble whose timestamp is new; the first scrobble without a date
      aborts the run with the TypeError. `pages[k]` is Last.fm's answer for
      page `k + 1`; `requested` counts the pages asked for. */
  method ImportAsWritten(existing: set<int>, pages: seq<seq<LastfmScrobble>>)
    returns (published: seq<ImportEvent>, requested: nat, r: Outcome<string>)
    ensures r == Pass <==> Dated(ReadScrobbles(pages))
    ensures r == Pass ==> published == Publishable(existing, ReadScrobbles(pages)) && requested == FirstEmpty(pages) + 1
    ensures r.Fail? ==> (r.error == "TypeError" &&
              published == Publishable(existing, ReadScrobbles(pages)[..DatedPrefix(ReadScrobbles(pages))]))
  {
    published := [];
    ghost var read: seq<LastfmScrobble> := [];
    var page := 1;
    requested := 0;
    while true
      invariant 1 <= page <= FirstEmpty(pages) + 1 && requested == page - 1
      invariant read == Concat(pages[..page - 1]) && Dated(read)
      invariant published == Publishable(existing, read)
      decreases FirstEmpty(pages) + 1 - page
    {
      var scrobbles := PageAt(pages, page);
      requested := requested + 1;
      var pagePublished, failed := PublishPageAsWritten(existing, scrobbles);
      if failed {
        FailedPage(existing, pages, page, read, scrobbles);
        published := published + pagePublished;
        return published, requested, Fail("TypeError");
      }
      NextPage(existing, pages, page, read, scrobbles);
      published := published + pagePublished;
      read := read + scrobbles;
      page := page + 1;
      if |scrobbles| == 0 {
        return published, requested, Pass;
      }
    }
  }

  /** A page with a scrobble without a date ends the read: what was published
      is everything before the first undated scrobble of the whole read. */
  lemma FailedPage(existing: set<int>, pages: seq<seq<LastfmScrobble>>, page: nat,
                   read: seq<LastfmScrobble>, scrobbles: seq<LastfmScrobble>)
    requires 1 <= page <= FirstEmpty(pages) + 1 && read == Concat(pages[..page - 1]) && Dated(read)
    requires scrobbles == PageAt(pages, page) && !Dated(scrobbles)
    ensures !Dated(ReadScrobbles(pages))
    ensures Publishable(existing, read) + Publishable(existing, scrobbles[..DatedPrefix(scrobbles)]) ==
            Publishable(existing, ReadScrobbles(pages)[..DatedPrefix(ReadScrobbles(pages))])
  {
    assert scrobbles[..|scrobbles|] == scrobbles;
    PublishableConcat(existing, read, scrobbles[..DatedPrefix(scrobbles)]);
    ReadPrefixFails(pages, page, read, scrobbles, DatedPrefix(scrobbles));
  }

  /** A page without undated scrobbles extends the read; an empty one completes it. */
  lemma NextPage(existing: set<int>, pages: seq<seq<LastfmScrobble>>, page: nat,
                 read: seq<LastfmScrobble>, scrobbles: seq<LastfmScrobble>)
    requires 1 <= page <= FirstEmpty(pages) + 1 && read == Concat(pages[..page - 1]) && Dated(read)
    requires scrobbles == PageAt(pages, page) && Dated(scrobbles)
    ensures Publishable(existing, read) + Publishable(existing, scrobbles[..DatedPrefix(scrobbles)]) ==
            Publishable(existing, read + scrobbles)
    ensures Dated(read + scrobbles)
    ensures scrobbles != [] ==> page <= FirstEmpty(pages) && read + scrobbles == Concat(pages[..page])
    ensures scrobbles == [] ==> page - 1 == FirstEmpty(pages) && ReadScrobbles(pages) == read
  {
    assert scrobbles[..DatedPrefix(scrobbles)] == scrobbles;
    PublishableConcat(existing, read, scrobbles);
    DatedConcat(read, scrobbles);
    ConcatNext(pages, page);
    if scrobbles == [] {
      ReadAll(pages, page);
    }
  }

  /** The `for` loop over one page, skipping scrobbles without a date. */
  method PublishPage(existing: set<int>, scrobbles: seq<LastfmScrobble>) returns (published: seq<ImportEvent>)
    ensures published == Publishable(existing, scrobbles)
  {
    published := [];
    for i := 0 to |scrobbles|
      invariant published == Publishable(existing, scrobbles[..i])
    {
      var scrobble := scrobbles[i];
      assert scrobbles[..i + 1] == scrobbles[..i] + [scrobble];
      PublishableAppend(existing, scrobbles[..i], scrobble);
      if scrobble.date.Some? {
        var timestamp := ParseInt(scrobble.date.value);
        if timestamp.None? || timestamp.value !in existing {
          var event := ScrobbleToNostrEvent(scrobble);
          published := published + [event.value];
        }
      }
    }
    assert scrobbles[..|scrobbles|] == scrobbles;
  }

  /** The import with scrobbles without a date (the playing track) skipped. */
  method Import(existing: set<int>, pages: seq<seq<LastfmScrobble>>)
    returns (published: seq<ImportEvent>, requested: nat)
    ensures published == Publishable(existing, ReadScrobbles(pages))
    ensures requested == FirstEmpty(pages) + 1
  {
    published := [];
    ghost var read: seq<LastfmScrobble> := [];
    var page := 1;
    requested := 0;
    while true
      invariant 1 <= page <= FirstEmpty(pages) + 1 && requested == page - 1
      invariant read == Concat(pages[..page - 1])
      invariant published == Publishable(existing, read)
      decreases FirstEmpty(pages) + 1 - page
    {
      var scrobbles := PageAt(pages, page);
      requested := requested + 1;
      var pagePublished := PublishPage(existing, scrobbles);
      PublishableConcat(existing, read, scrobbles);
      published := published + pagePublished;
      ConcatNext(pages, page);
      read := read + scrobbles;
      page := page + 1;
      if |scrobbles| == 0 {
        ReadAll(pages, page - 1);
        return;
      }
    }
  }

  lemma {:induction false} PublishableConcat(existing: set<int>, a: seq<LastfmScrobble>, b: seq<LastfmScrobble>)
    ensures Publishable(existing, a + b) == Publishable(existing, a) + Publishable(existing, b)
    decreases |b|
  {
    if b == [] {
      assert a + b == a;
    } else {
      var init, last := b[..|b| - 1], b[|b| - 1];
      PublishableConcat(existing, a, init);
      var ab := a + b;
      assert ab[..|ab| - 1] == a + init && ab[|ab| - 1] == last;
      var tail := if last.date.Some? && IsNew(existing, last) then [ScrobbleToNostrEvent(last).value] else [];
      assert Publishable(existing, ab) == Publishable(existing, a + init) + tail;
      assert Publishable(existing, b) == Publishable(existing, init) + tail;
    }
  }

  lemma DatedConcat(a: seq<LastfmScrobble>, b: seq<LastfmScrobble>)
    requires Dated(a) && Dated(b)
    ensures Dated(a + b)
  {
    forall k | 0 <= k < |a + b| ensures (a + b)[k].date.Some? {
      if k >= |a| { assert (a + b)[k] == b[k - |a|]; }
    }
  }

  /** Reading one more page appends it; an empty page is the last one read. */
  lemma ConcatNext(pages: seq<seq<LastfmScrobble>>, page: nat)
    requires 1 <= page <= FirstEmpty(pages) + 1
    ensures page - 1 < |pages| ==> Concat(pages[..page]) == Concat(pages[..page - 1]) + PageAt(pages, page)
    ensures PageAt(pages, page) != [] ==> page <= FirstEmpty(pages)
  {
    if page - 1 < |pages| {
      ConcatSnoc(pages, page);
    }
    var n := FirstEmpty(pages);
    if page == n + 1 && n < |pages| {
      assert PageAt(pages, page) == pages[n] == [];
    }
  }

  /** The pages up to and including page `page` are those before it and then it. */
  lemma ConcatSnoc(pages: seq<seq<LastfmScrobble>>, page: nat)
    requires 1 <= page <= |pages|
    ensures Concat(pages[..page]) == Concat(pages[..page - 1]) + PageAt(pages, page)
  {
    var upto := pages[..page];
    assert upto[..page - 1] == pages[..page - 1];
    assert upto[page - 1] == PageAt(pages, page);
  }

  lemma ReadAll(pages: seq<seq<LastfmScrobble>>, page: nat)
    requires 1 <= page <= FirstEmpty(pages) + 1 && PageAt(pages, page) == []
    ensures page - 1 == FirstEmpty(pages)
  {
  }

  /** A scrobble without a date met on page `page` is the first undated one of the whole read. */
  lemma ReadPrefixFails(pages: seq<seq<LastfmScrobble>>, page: nat, before: seq<LastfmScrobble>,
                        scrobbles: seq<LastfmScrobble>, i: nat)
    requires 1 <= page <= FirstEmpty(pages) + 1 && before == Concat(pages[..page - 1]) && Dated(before)
    requires scrobbles == PageAt(pages, page) && i < |scrobbles| && Dated(scrobbles[..i]) && scrobbles[i].date.None?
    ensures !Dated(ReadScrobbles(pages))
    ensures DatedPrefix(ReadScrobbles(pages)) == |before| + i
    ensures ReadScrobbles(pages)[..DatedPrefix(ReadScrobbles(pages))] == before + scrobbles[..i]
  {
    ConcatNext(pages, page);
    var all := ReadScrobbles(pages);
    var upto := Concat(pages[..page]);
    assert upto == before + scrobbles;
    ConcatPrefix(pages, page, FirstEmpty(pages));
    assert upto <= all;
    assert all[|before| + i] == scrobbles[i];
    assert all[..|before| + i] == before + scrobbles[..i];
    DatedPrefixAt(all, |before| + i);
  }

  lemma {:induction false} DatedPrefixAt(ss: seq<LastfmScrobble>, n: nat)
    requires n < |ss| && Dated(ss[..n]) && ss[n].date.None?
    ensures DatedPrefix(ss) == n
    decreases n
  {
    if n > 0 {
      assert ss[..n][0] == ss[0];
      var t := ss[1..];
      var head, dated := t[..n - 1], ss[..n];
      assert forall k :: 0 <= k < n - 1 ==> head[k] == dated[k + 1];
      DatedPrefixAt(t, n - 1);
    }
  }

  lemma {:induction false} ConcatPrefix(pages: seq<seq<LastfmScrobble>>, a: nat, b: nat)
    requires a <= b <= |pages|
    ensures Concat(pages[..a]) <= Concat(pages[..b])
    decreases b
  {
    if a < b {
      ConcatPrefix(pages, a, b - 1);
      assert pages[..b][..b - 1] == pages[..b - 1];
    }
  }

  /** A scrobble is published exactly when it is dated and its timestamp is new. */
  lemma {:induction false} PublishedIffNew(existing: set<int>, ss: seq<LastfmScrobble>, s: LastfmScrobble)
    requires s.date.Some?
    ensures ScrobbleToNostrEvent(s).value in Publishable(existing, ss) ==>
              exists k :: 0 <= k < |ss| && ss[k].date.Some? && IsNew(existing, ss[k]) &&
                          ScrobbleToNostrEvent(ss[k]).value == ScrobbleToNostrEvent(s).value
    ensures s in ss && IsNew(existing, s) ==> ScrobbleToNostrEvent(s).value in Publishable(existing, ss)
    decreases |ss|
  {
    if ss != [] {
      var init := ss[..|ss| - 1];
      PublishedIffNew(existing, init, s);
      assert forall k :: 0 <= k < |init| ==> init[k] == ss[k];
      if s in ss && s !in init { assert s == ss[|ss| - 1]; }
      if ScrobbleToNostrEvent(s).value in Publishable(existing, init) {
        var k :| 0 <= k < |init| && init[k].date.Some? && IsNew(existing, init[k]) &&
                 ScrobbleToNostrEvent(init[k]).value == ScrobbleToNostrEvent(s).value;
        assert ss[k] == init[k];
      }
    }
  }

  /** The set is not extended during a run: two new scrobbles with the same timestamp are both published. */
  lemma SameTimestampBothPublished(existing: set<int>, a: LastfmScrobble, b: LastfmScrobble)
    requires a.date.Some? && a.date == b.date && IsNew(existing, a)
    ensures Publishable(existing, [a, b]) == [ScrobbleToNostrEvent(a).value, ScrobbleToNostrEvent(b).value]
  {
    assert IsNew(existing, b);
    assert [a, b][..1] == [a];
    assert [a][..0] == [];
    assert Publishable(existing, [a]) == [ScrobbleToNostrEvent(a).value];
  }

  /** The timestamps of published events. */
  function Timestamps(es: seq<ImportEvent>): set<int> {
    set k | 0 <= k < |es| && es[k].createdAt.Some? :: es[k].createdAt.value
  }

  /** Re-running the import against a relay that now holds what the first run
      published publishes nothing more (NaN timestamps aside). */
  lemma {:induction false} ImportIdempotent(existing: set<int>, ss: seq<LastfmScrobble>)
    requires forall k :: 0 <= k < |ss| && ss[k].date.Some? ==> ParseInt(ss[k].date.value).Some?
    ensures Publishable(existing + Timestamps(Publishable(existing, ss)), ss) == []
  {
    var more := Timestamps(Publishable(existing, ss));
    forall k | 0 <= k < |ss| && ss[k].date.Some? ensures !IsNew(existing + more, ss[k]) {
      var t := ParseInt(ss[k].date.value).value;
      if t !in existing {
        PublishedIffNew(existing, ss, ss[k]);
        var p := Publishable(existing, ss);
        var j :| 0 <= j < |p| && p[j] == ScrobbleToNostrEvent(ss[k]).value;
        assert t in more;
      }
    }
    NothingNew(existing + more, ss);
  }

  lemma {:induction false} NothingNew(existing: set<int>, ss: seq<LastfmScrobble>)
    requires forall k :: 0 <= k < |ss| && ss[k].date.Some? ==> !IsNew(existing, ss[k])
    ensures Publishable(existing, ss) == []
    decreases |ss|
  {
    if ss != [] {
      var init := ss[..|ss| - 1];
      assert forall k :: 0 <= k < |init| ==> init[k] == ss[k];
      NothingNew(existing, init);
    }
  }

  /** Last.fm lists the playing track first, without a date: the import as
      written then publishes nothing at all, while skipping it imports the rest. */
  lemma NowPlayingAbortsImport(playing: LastfmScrobble, done: LastfmScrobble)
    requires playing.date.None? && done.date.Some?
    ensures ReadScrobbles([[playing, done]]) == [playing, done]
    ensures !Dated([playing, done]) && DatedPrefix([playing, done]) == 0
    ensures Publishable({}, [playing, done]) == [ScrobbleToNostrEvent(done).value]
  {
    var pages := [[playing, done]];
    assert pages[1..] == [];
    assert FirstEmpty(pages) == 1;
    assert pages[..1] == pages && pages[..0] == [];
    assert Concat(pages) == [playing, done];
    assert [playing, done][..1] == [playing] && [playing][..0] == [];
    assert Publishable({}, [playing]) == [];
    assert IsNew({}, done);
    assert [playing, done][0].date.None?;
  }
}
