/** The standalone history query of the cmus scrobbler: it dials each relay
    URL itself, queries it and merges the answers. */
module CmusQuery {
  import opened Wrappers
  import opened NostrEvent
  import opened Sorting
  import opened History

  /** The answers as the merge sees them: a relay that could not be dialled
      answers nothing, whatever its query would have returned. */
  function Reachable(connected: seq<bool>, answers: seq<Option<seq<Event>>>): (r: seq<Option<seq<Event>>>)
    requires |connected| == |answers|
    ensures |r| == |answers|
    ensures forall k :: 0 <= k < |r| ==> r[k] == (if connected[k] then answers[k] else None)
    decreases |answers|
  {
    if answers == [] then []
    else Reachable(connected[..|answers| - 1], answers[..|answers| - 1]) +
         [if connected[|answers| - 1] then answers[|answers| - 1] else None]
  }

  /** `QueryRecentScrobbles(relayURLs, pubkey, limit)`: `connected[k]` says
      whether dialling `relayURLs[k]` succeeded and `answers[k]` is that
      relay's answer to the scrobble filter (`None` when the query failed).
      Failed relays are skipped, the rest are concatenated, sorted newest
      first and cut to `limit`; no error is ever reported. */
  method QueryRecentScrobbles(relayURLs: seq<string>, pubkey: string, limit: nat,
                              connected: seq<bool>, answers: seq<Option<seq<Event>>>)
    returns (events: seq<Event>, err: Outcome<string>)
    requires |connected| == |relayURLs| && |answers| == |relayURLs|
    ensures err == Pass
    ensures NewestFirst(Reachable(connected, answers), events, limit)
    ensures |events| == Min(limit, |Collected(Reachable(connected, answers))|)
    ensures SortedDesc(events, CreatedAt)
    ensures AnswersMatch(answers, ScrobbleFilter(pubkey, limit)) ==>
              forall e :: e in events ==> e.kind == ScrobbleKind && e.pubkey == pubkey
  {
    var filter := ScrobbleFilter(pubkey, limit);
    ghost var reached := Reachable(connected, answers);
    var allEvents: seq<Event> := [];
    var i := 0;
    while i < |relayURLs|
      invariant 0 <= i <= |relayURLs|
      invariant allEvents == Collected(reached[..i])
    {
      CollectedStep(reached, i);
      if !connected[i] {
        i := i + 1;
        continue;
      }
      if answers[i].None? {
        i := i + 1;
        continue;
      }
      allEvents := allEvents + answers[i].value;
      i := i + 1;
    }
    assert reached[..|reached|] == reached;
    events := Take(SortDesc(allEvents, CreatedAt), limit);
    MergeFacts(reached, pubkey, limit);
    assert AnswersMatch(answers, filter) ==> AnswersMatch(reached, filter);
    err := Pass;
  }

  /** A relay that cannot be dialled contributes nothing, just as one whose query fails. */
  lemma UnreachableIsSkipped(connected: seq<bool>, answers: seq<Option<seq<Event>>>, k: nat, e: Event)
    requires |connected| == |answers| && k < |answers| && !connected[k]
    ensures e in Collected(Reachable(connected, answers)) <==>
            exists j :: 0 <= j < |answers| && j != k && connected[j] && answers[j].Some? && e in answers[j].value
  {
    var reached := Reachable(connected, answers);
    CollectedMembers(reached, e);
  }
}
