/** The bounded polling loop of `wait_for_new_messages`, as a function over
    the listings the provider returns: one baseline listing, then one
    listing per check. Sleeping is not modelled; a poll is one listing. */
module Polling {
  import opened Options
  import opened Session
  import opened Messages

  /** How the wait ends: refused without a token, stopped after `polls`
      checks because `newIds` appeared, or gave up after `polls` checks. */
  datatype WaitOutcome =
    | NotAuthenticated
    | NewMail(polls: nat, newIds: set<string>)
    | TimedOut(polls: nat)

  /** The set of `id` fields of a listing (an absent id reads as ''). */
  function IdsOf(ms: seq<Message>): set<string>
    decreases |ms|
  {
    if ms == [] then {} else {ms[0].id.ValueOr("")} + IdsOf(ms[1..])
  }

  /** The canonical ids of a sequence of provider records. */
  function CanonicalIds(ms: seq<Message>): set<string>
    decreases |ms|
  {
    if ms == [] then {} else {CanonicalId(ms[0])} + CanonicalIds(ms[1..])
  }

  /** The ids one poll sees, a failed listing counting as an empty one:
      nothing without a token or when the listing failed, otherwise the
      canonical ids of the records. */
  function PolledIds(s: ClientState, reply: Option<seq<Message>>): (r: set<string>)
    ensures GetMessages(s, reply).None? ==> r == {}
  {
    if !HasToken(s) || reply.None? then {} else CanonicalIds(reply.value)
  }

  lemma {:induction false} CanonicalIdsOfNormalized(ms: seq<Message>)
    ensures IdsOf(seq(|ms|, i requires 0 <= i < |ms| => Normalize(ms[i]))) == CanonicalIds(ms)
    decreases |ms|
  {
    if ms != [] {
      var ns := seq(|ms|, i requires 0 <= i < |ms| => Normalize(ms[i]));
      assert ns[1..] == seq(|ms[1..]|, i requires 0 <= i < |ms[1..]| => Normalize(ms[1..][i]));
      CanonicalIdsOfNormalized(ms[1..]);
    }
  }

  /** The ids computed from a successful listing are the `id` fields of the
      normalised records `get_messages` returns. */
  lemma PolledIdsOfListing(s: ClientState, reply: Option<seq<Message>>)
    requires GetMessages(s, reply).Some?
    ensures PolledIds(s, reply) == IdsOf(GetMessages(s, reply).value)
  {
    CanonicalIdsOfNormalized(reply.value);
    assert GetMessages(s, reply).value == seq(|reply.value|, i requires 0 <= i < |reply.value| => Normalize(reply.value[i]));
  }

  lemma {:induction false} CanonicalIdsMembers(ms: seq<Message>, id: string)
    ensures id in CanonicalIds(ms) <==> exists i :: 0 <= i < |ms| && CanonicalId(ms[i]) == id
    decreases |ms|
  {
    if ms != [] {
      CanonicalIdsMembers(ms[1..], id);
      if exists i :: 0 <= i < |ms[1..]| && CanonicalId(ms[1..][i]) == id {
        var i :| 0 <= i < |ms[1..]| && CanonicalId(ms[1..][i]) == id;
        assert ms[i + 1] == ms[1..][i];
      }
      if exists i :: 0 <= i < |ms| && CanonicalId(ms[i]) == id {
        var i :| 0 <= i < |ms| && CanonicalId(ms[i]) == id;
        if i > 0 {
          assert ms[1..][i - 1] == ms[i];
        }
      }
    }
  }

  /** A successful listing's ids are exactly the canonical ids of its records. */
  lemma PolledIdsAreCanonical(s: ClientState, reply: Option<seq<Message>>, id: string)
    requires GetMessages(s, reply).Some?
    ensures id in PolledIds(s, reply) <==> exists i :: 0 <= i < |reply.value| && CanonicalId(reply.value[i]) == id
  {
    CanonicalIdsMembers(reply.value, id);
  }

  /** Checks `k` up to `n` of the loop, over the id sets the polls saw. */
  function Scan(baseline: set<string>, polled: seq<set<string>>, n: nat, k: nat): (r: WaitOutcome)
    requires k <= n <= |polled|
    ensures r.NewMail? ==>
      && k < r.polls <= n
      && r.newIds == polled[r.polls - 1] - baseline && r.newIds != {}
      && forall j :: k <= j < r.polls - 1 ==> polled[j] <= baseline
    ensures r.TimedOut? ==>
      && r.polls == n
      && forall j :: k <= j < n ==> polled[j] <= baseline
    ensures !r.NotAuthenticated?
    decreases n - k
  {
    if k == n then TimedOut(n)
    else
      var arrived := polled[k] - baseline;
      if arrived != {} then NewMail(k + 1, arrived)
      else
        assert polled[k] <= baseline by {
          forall x | x in polled[k] ensures x in baseline {
            assert x !in arrived;
          }
        }
        Scan(baseline, polled, n, k + 1)
  }

  /** The loop of `wait_for_new_messages` over the id sets of its polls:
      it stops at the first of the `max_checks` polls whose ids are not all
      in the baseline and reports exactly those ids; when no poll shows a
      new id it times out after exactly `max_checks` polls (none when
      `max_checks` is not positive). */
  function WaitOnIds(baseline: set<string>, polled: seq<set<string>>, maxChecks: int): (r: WaitOutcome)
    requires maxChecks <= |polled|
    ensures !r.NotAuthenticated?
    ensures r.NewMail? ==>
      && 1 <= r.polls <= maxChecks
      && r.newIds == polled[r.polls - 1] - baseline && r.newIds != {}
      && forall j :: 0 <= j < r.polls - 1 ==> polled[j] <= baseline
    ensures r.TimedOut? ==>
      && r.polls == (if maxChecks < 0 then 0 else maxChecks)
      && forall j :: 0 <= j < maxChecks ==> polled[j] <= baseline
    ensures (forall j :: 0 <= j < maxChecks ==> polled[j] <= baseline) <==> r.TimedOut?
  {
    Scan(baseline, polled, if maxChecks < 0 then 0 else maxChecks, 0)
  }

  /** The wait ends at the first poll that shows an id outside the
      baseline, whatever the later polls would show. */
  lemma WaitStopsAtFirstNewPoll(baseline: set<string>, polled: seq<set<string>>, maxChecks: int, k: nat)
    requires k < maxChecks <= |polled|
    requires forall j :: 0 <= j < k ==> polled[j] <= baseline
    requires !(polled[k] <= baseline)
    ensures WaitOnIds(baseline, polled, maxChecks) == NewMail(k + 1, polled[k] - baseline)
  {
    var r := WaitOnIds(baseline, polled, maxChecks);
    assert r.NewMail?;
    assert r.polls == k + 1;
  }

  /** The id sets of a series of listings, one per poll. */
  function PollResults(s: ClientState, polls: seq<Option<seq<Message>>>): (r: seq<set<string>>)
    ensures |r| == |polls|
    ensures forall i :: 0 <= i < |polls| ==> r[i] == PolledIds(s, polls[i])
  {
    seq(|polls|, i requires 0 <= i < |polls| => PolledIds(s, polls[i]))
  }

  /** `wait_for_new_messages(interval, max_checks)`: without a token it
      polls nothing; otherwise it runs the loop with the ids of `initial`
      as the baseline and one listing of `polls` per check. */
  function WaitForNewMessages(s: ClientState, initial: Option<seq<Message>>, polls: seq<Option<seq<Message>>>, maxChecks: int): (r: WaitOutcome)
    requires maxChecks <= |polls|
    ensures r.NotAuthenticated? <==> !HasToken(s)
    ensures PollsMade(r) <= (if maxChecks < 0 then 0 else maxChecks)
    ensures r.NewMail? ==>
      && 1 <= r.polls <= maxChecks
      && r.newIds == PolledIds(s, polls[r.polls - 1]) - PolledIds(s, initial) && r.newIds != {}
      && forall j :: 0 <= j < r.polls - 1 ==> PolledIds(s, polls[j]) <= PolledIds(s, initial)
    ensures HasToken(s) ==>
      (r.TimedOut? <==> forall j :: 0 <= j < maxChecks ==> PolledIds(s, polls[j]) <= PolledIds(s, initial))
    ensures r.TimedOut? ==> r.polls == (if maxChecks < 0 then 0 else maxChecks)
  {
    if !HasToken(s) then NotAuthenticated
    else
      var baseline := PolledIds(s, initial);
      var polled := PollResults(s, polls);
      var r := WaitOnIds(baseline, polled, maxChecks);
      assert r.NewMail? ==> forall j :: 0 <= j < r.polls - 1 ==> PolledIds(s, polls[j]) <= baseline by {
        if r.NewMail? {
          forall j | 0 <= j < r.polls - 1
            ensures PolledIds(s, polls[j]) <= baseline
          {
            assert polled[j] <= baseline;
          }
        }
      }
      assert (forall j :: 0 <= j < maxChecks ==> PolledIds(s, polls[j]) <= baseline)
        <==> (forall j :: 0 <= j < maxChecks ==> polled[j] <= baseline);
      r
  }

  /** With a token, the wait is the id-level loop run on the baseline ids
      and the ids of each poll. */
  lemma WaitRunsOnPolledIds(s: ClientState, initial: Option<seq<Message>>, polls: seq<Option<seq<Message>>>, maxChecks: int)
    requires maxChecks <= |polls|
    requires HasToken(s)
    ensures WaitForNewMessages(s, initial, polls, maxChecks)
         == WaitOnIds(PolledIds(s, initial), PollResults(s, polls), maxChecks)
  {
  }

  /** The number of listings fetched after the baseline. */
  function PollsMade(r: WaitOutcome): nat {
    match r
    case NotAuthenticated => 0
    case NewMail(k, _) => k
    case TimedOut(k) => k
  }
}
