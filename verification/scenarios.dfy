/** Concrete runs of the client: account creation followed by a listing of
    the new mailbox, and the two outcomes of waiting for mail. */
module Scenarios {
  import opened Options
  import opened Text
  import opened Session
  import opened Messages
  import opened Polling

  /** A listed record whose `@id` is `/messages/<id>`. */
  function Listed(id: string): Message {
    Message(Some("/messages/" + id), None, Some("hello"), Some("a@b.c"), None, [])
  }

  lemma ListedId(id: string)
    requires id != "" && '/' !in id
    ensures CanonicalId(Listed(id)) == id
  {
    assert "/messages/" + id == "/messages" + "/" + id;
    CanonicalIdOfPath(Listed(id), "/messages", id);
  }

  /** Creating `abc1234567` on a fresh client whose provider offers
      `example.com` yields that address, and the new mailbox lists as empty
      rather than failing. */
  lemma CreateThenListEmpty(userDraw: nat -> nat, passDraw: nat -> nat)
    ensures var r := CreateAccount(Initial, Some("abc1234567"), None, userDraw, passDraw,
                                   Domains([DomainEntry("example.com")]), true, TokenIssued(Some("tok")));
      && r.out
      && r.state.account.value.address == "abc1234567@example.com"
      && r.state.authHeader == Some("Bearer tok")
      && GetMessages(r.state, Some([])) == Some([])
  {
    var r := CreateAccount(Initial, Some("abc1234567"), None, userDraw, passDraw,
                           Domains([DomainEntry("example.com")]), true, TokenIssued(Some("tok")));
    assert r.state.domain == Some("example.com");
    assert MakeAddress("abc1234567", "example.com") == "abc1234567@example.com";
    assert BearerHeader(Some("tok")) == "Bearer " + "tok" == "Bearer tok";
  }

  /** Baseline {A, B}; the first poll shows {A, B}, the second {A, B, C}:
      the loop stops after two polls and reports exactly {C}, whatever the
      remaining polls would show. */
  lemma WaitSeesNewMessage(a: string, b: string, c: string, rest: seq<set<string>>)
    requires c != a && c != b
    ensures WaitOnIds({a, b}, [{a, b}, {a, b, c}] + rest, 2 + |rest|) == NewMail(2, {c})
  {
    var polled := [{a, b}, {a, b, c}] + rest;
    assert polled[0] == {a, b} && polled[1] == {a, b, c};
    assert c in polled[1];
    WaitStopsAtFirstNewPoll({a, b}, polled, 2 + |rest|, 1);
    assert {a, b, c} - {a, b} == {c};
  }

  /** The strings of a sequence, as a set. */
  function Elems(ids: seq<string>): set<string>
    decreases |ids|
  {
    if ids == [] then {} else {ids[0]} + Elems(ids[1..])
  }

  /** A listing whose records have the canonical ids `ids` polls as the set
      of those ids. */
  lemma {:induction false} CanonicalIdsAre(ms: seq<Message>, ids: seq<string>)
    requires |ms| == |ids|
    requires forall i :: 0 <= i < |ms| ==> CanonicalId(ms[i]) == ids[i]
    ensures CanonicalIds(ms) == Elems(ids)
    decreases |ms|
  {
    if ms != [] {
      CanonicalIdsAre(ms[1..], ids[1..]);
    }
  }

  lemma ElemsOfThree(a: string, b: string, c: string)
    ensures Elems([a, b]) == {a, b}
    ensures Elems([a, b, c]) == {a, b, c}
  {
    assert [b][1..] == [] && [c][1..] == [];
    assert Elems([b]) == {b} && Elems([c]) == {c};
    assert [a, b][1..] == [b] && [b, c][1..] == [c];
    assert Elems([a, b]) == {a} + {b};
    assert Elems([b, c]) == {b} + {c};
    assert [a, b, c][1..] == [b, c];
    assert Elems([a, b, c]) == {a} + {b, c};
  }

  /** Listings of `a`, `b` (and `c`) poll as the sets of those ids. */
  lemma ListedPolls(s: ClientState, a: string, b: string, c: string)
    requires HasToken(s)
    requires a != "" && '/' !in a && b != "" && '/' !in b && c != "" && '/' !in c
    ensures PolledIds(s, Some([Listed(a), Listed(b)])) == {a, b}
    ensures PolledIds(s, Some([Listed(a), Listed(b), Listed(c)])) == {a, b, c}
  {
    ListedId(a);
    ListedId(b);
    ListedId(c);
    ElemsOfThree(a, b, c);
    var two, three := [Listed(a), Listed(b)], [Listed(a), Listed(b), Listed(c)];
    forall i | 0 <= i < 2 ensures CanonicalId(two[i]) == [a, b][i] {
      if i == 0 { assert two[i] == Listed(a); } else { assert two[i] == Listed(b); }
    }
    forall i | 0 <= i < 3 ensures CanonicalId(three[i]) == [a, b, c][i] {
      if i == 0 { assert three[i] == Listed(a); }
      else if i == 1 { assert three[i] == Listed(b); }
      else { assert three[i] == Listed(c); }
    }
    CanonicalIdsAre(two, [a, b]);
    CanonicalIdsAre(three, [a, b, c]);
  }

  lemma PollResultsAppend(s: ClientState, xs: seq<Option<seq<Message>>>, ys: seq<Option<seq<Message>>>)
    ensures PollResults(s, xs + ys) == PollResults(s, xs) + PollResults(s, ys)
  {
    var l, r := PollResults(s, xs + ys), PollResults(s, xs) + PollResults(s, ys);
    forall i | 0 <= i < |xs + ys| ensures l[i] == r[i] {
      if i < |xs| {
        assert (xs + ys)[i] == xs[i];
      } else {
        assert (xs + ys)[i] == ys[i - |xs|];
      }
    }
  }

  /** The wait over listings whose id sets are known is the wait over those sets. */
  lemma WaitOnKnownIds(s: ClientState, initial: Option<seq<Message>>, polls: seq<Option<seq<Message>>>,
                       maxChecks: int, baseline: set<string>, polled: seq<set<string>>)
    requires maxChecks <= |polls|
    requires HasToken(s)
    requires PolledIds(s, initial) == baseline && PollResults(s, polls) == polled
    ensures WaitForNewMessages(s, initial, polls, maxChecks) == WaitOnIds(baseline, polled, maxChecks)
  {
    WaitRunsOnPolledIds(s, initial, polls, maxChecks);
  }

  /** The same run with listings of records whose `@id` paths end in
      `a`, `b` and `c`. */
  lemma WaitSeesListedMessage(s: ClientState, a: string, b: string, c: string, rest: seq<Option<seq<Message>>>)
    requires HasToken(s)
    requires a != "" && '/' !in a && b != "" && '/' !in b && c != "" && '/' !in c
    requires c != a && c != b
    ensures var ab := Some([Listed(a), Listed(b)]);
      WaitForNewMessages(s, ab, [ab, Some([Listed(a), Listed(b), Listed(c)])] + rest, 2 + |rest|)
      == NewMail(2, {c})
  {
    var ab := Some([Listed(a), Listed(b)]);
    var abc := Some([Listed(a), Listed(b), Listed(c)]);
    var polls := [ab, abc] + rest;
    var rs := PollResults(s, rest);
    var polled := [{a, b}, {a, b, c}] + rs;
    assert PolledIds(s, ab) == {a, b} && PollResults(s, polls) == polled by {
      ListedPolls(s, a, b, c);
      PollResultsAppend(s, [ab, abc], rest);
      assert PollResults(s, [ab, abc]) == [{a, b}, {a, b, c}];
    }
    WaitSeesNewMessage(a, b, c, rs);
    WaitOnKnownIds(s, ab, polls, 2 + |rest|, {a, b}, polled);
  }

  /** When every poll shows the baseline again, the wait times out after
      exactly `max_checks` polls. */
  lemma WaitTimesOut(s: ClientState, baseline: Option<seq<Message>>, maxChecks: nat)
    requires HasToken(s)
    ensures WaitForNewMessages(s, baseline, seq(maxChecks, _ => baseline), maxChecks) == TimedOut(maxChecks)
  {
    WaitRunsOnPolledIds(s, baseline, seq(maxChecks, _ => baseline), maxChecks);
    var polled := PollResults(s, seq(maxChecks, _ => baseline));
    assert forall j :: 0 <= j < maxChecks ==> polled[j] <= PolledIds(s, baseline);
  }
}
