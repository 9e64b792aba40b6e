/** The history aggregator: how the answers of several relays to one query
    are merged into one newest-first list. */
module History {
  import opened Wrappers
  import opened NostrEvent
  import opened Sorting

  /** A relay query filter (`nostr.Filter`) restricted to the fields the scrobbler sets. */
  datatype Filter = Filter(kinds: seq<int>, authors: seq<string>, limit: nat)

  /** The filter both history queries send: kind 2002, this author, at most `limit`. */
  function ScrobbleFilter(pubkey: string, limit: nat): (f: Filter)
    ensures forall e: Event :: Matches(f, e) <==> e.kind == ScrobbleKind && e.pubkey == pubkey
  {
    Filter([ScrobbleKind], [pubkey], limit)
  }

  predicate Matches(f: Filter, e: Event) {
    e.kind in f.kinds && e.pubkey in f.authors
  }

  /** Every relay that answered returned only events the filter admits. */
  predicate AnswersMatch(answers: seq<Option<seq<Event>>>, f: Filter) {
    forall k, e :: 0 <= k < |answers| && answers[k].Some? && e in answers[k].value ==> Matches(f, e)
  }

  /** The answers of the relays that did not fail, concatenated in relay order,
      duplicates included. A relay answer is `None` when connecting to it or
      querying it failed. */
  function Collected(answers: seq<Option<seq<Event>>>): seq<Event>
    decreases |answers|
  {
    if answers == [] then []
    else
      var last := match answers[|answers| - 1] case None => [] case Some(evs) => evs;
      Collected(answers[..|answers| - 1]) + last
  }

  /** Collecting one more answer appends its events. */
  lemma CollectedStep(answers: seq<Option<seq<Event>>>, i: nat)
    requires i < |answers|
    ensures Collected(answers[..i + 1]) == Collected(answers[..i]) + answers[i].GetOr([])
  {
    assert answers[..i + 1][..i] == answers[..i];
  }

  /** An event is collected exactly when some relay that answered returned it. */
  lemma {:induction false} CollectedMembers(answers: seq<Option<seq<Event>>>, e: Event)
    ensures e in Collected(answers) <==> exists k :: 0 <= k < |answers| && answers[k].Some? && e in answers[k].value
    decreases |answers|
  {
    if answers != [] {
      var init := answers[..|answers| - 1];
      CollectedMembers(init, e);
      if e in Collected(init) {
        var k :| 0 <= k < |init| && init[k].Some? && e in init[k].value;
        assert answers[k] == init[k];
      }
      if exists k :: 0 <= k < |answers| && answers[k].Some? && e in answers[k].value {
        var k :| 0 <= k < |answers| && answers[k].Some? && e in answers[k].value;
        if k < |init| { assert init[k] == answers[k]; }
      }
    }
  }

  /** The same event returned by two relays is kept twice: the merge does not de-duplicate. */
  lemma {:induction false} CollectedCounts(answers: seq<Option<seq<Event>>>, extra: seq<Event>)
    ensures multiset(Collected(answers + [Some(extra)])) == multiset(Collected(answers)) + multiset(extra)
    ensures Collected(answers + [None]) == Collected(answers)
  {
    assert (answers + [Some(extra)])[..|answers|] == answers;
    assert (answers + [None])[..|answers|] == answers;
  }

  /** `events` is what "concatenate, sort by `CreatedAt` newest first with an
      unspecified order among ties, keep the first `limit`" may return. */
  ghost predicate NewestFirst(answers: seq<Option<seq<Event>>>, events: seq<Event>, limit: nat) {
    IsTopCut(Collected(answers), events, limit, CreatedAt)
  }

  /** A merge result only holds collected events, so honest relays give a result the filter admits. */
  lemma MergedMatch(answers: seq<Option<seq<Event>>>, events: seq<Event>, limit: nat, f: Filter)
    requires NewestFirst(answers, events, limit) && AnswersMatch(answers, f)
    ensures forall e :: e in events ==> Matches(f, e)
  {
    forall e | e in events ensures Matches(f, e) {
      assert e in multiset(events);
      assert e in Collected(answers);
      CollectedMembers(answers, e);
    }
  }

  /** The merge both history queries end with: newest first, cut to `limit`. */
  lemma MergeFacts(answers: seq<Option<seq<Event>>>, pubkey: string, limit: nat)
    ensures NewestFirst(answers, Take(SortDesc(Collected(answers), CreatedAt), limit), limit)
    ensures |Take(SortDesc(Collected(answers), CreatedAt), limit)| == Min(limit, |Collected(answers)|)
    ensures SortedDesc(Take(SortDesc(Collected(answers), CreatedAt), limit), CreatedAt)
    ensures AnswersMatch(answers, ScrobbleFilter(pubkey, limit)) ==>
              forall e :: e in Take(SortDesc(Collected(answers), CreatedAt), limit) ==>
                            e.kind == ScrobbleKind && e.pubkey == pubkey
  {
    var events := Take(SortDesc(Collected(answers), CreatedAt), limit);
    TopCutOfSort(Collected(answers), limit, CreatedAt);
    if AnswersMatch(answers, ScrobbleFilter(pubkey, limit)) {
      MergedMatch(answers, events, limit, ScrobbleFilter(pubkey, limit));
    }
  }

  /** With `limit = 1` the merge yields nothing exactly when nothing was
      collected, and otherwise one event no older than any collected one. */
  lemma NewestOfOne(answers: seq<Option<seq<Event>>>, events: seq<Event>)
    requires NewestFirst(answers, events, 1)
    ensures events == [] <==> Collected(answers) == []
    ensures events != [] ==> |events| == 1 && events[0] in Collected(answers)
    ensures events != [] ==> forall e :: e in Collected(answers) ==> events[0].createdAt >= e.createdAt
  {
    var c := Collected(answers);
    if events != [] {
      assert events[0] in multiset(events);
      forall e | e in c ensures events[0].createdAt >= e.createdAt {
        if e != events[0] {
          assert multiset(events)[e] == 0;
          assert e in multiset(c) - multiset(events);
        }
      }
    }
  }
}
