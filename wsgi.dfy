/** The web layer's work on the per-consumer dispatch table: acknowledging a
    mail (`DELETE /mail/<id>`), claiming every due dispatch at once
    (`GET /mail` as JSON), claiming them one at a time and then per
    notification (`GET /mail` as NDJSON), and the dispatch-gated lookups of a
    mail and of an attachment. A claim gives a dispatch a fixed one-hour lease:
    `last_time` becomes the claim time and `next_time` an hour later. */
module Wsgi {
  import opened Wrappers
  import opened Records
  import opened Text
  import Loader

  // ---------------------------------------------------------------------------
  // The dispatch table: what is due, what a claim does

  /** The consumer's dispatches that are due at `now` (`next_time <= now`). */
  function DueKeys(t: DispatchTable, c: ConsumerId, now: Time): (r: set<DispatchKey>)
    ensures forall k :: k in r <==> k in t && k.consumerId == c && t[k].nextTime <= now
  {
    set k | k in t && k.consumerId == c && t[k].nextTime <= now
  }

  /** One claimed dispatch: delivered at `now`, due again an hour later. */
  function Claim(d: Dispatch, now: Time): (r: Dispatch)
    ensures r.lastTime == Some(now) && r.nextTime == now + Hour && r.createdAt == d.createdAt
  {
    d.(lastTime := Some(now), nextTime := now + Hour)
  }

  /** The table with the rows under `keys` claimed at `now`. */
  function ClaimKeys(t: DispatchTable, keys: set<DispatchKey>, now: Time): (r: DispatchTable)
    ensures r.Keys == t.Keys
    ensures forall k :: k in t ==> r[k] == (if k in keys then Claim(t[k], now) else t[k])
  {
    map k | k in t :: if k in keys then Claim(t[k], now) else t[k]
  }

  /** The bulk `UPDATE dispatch ... WHERE consumer = c AND next_time <= now`:
      exactly the consumer's due rows are claimed, every other row, including
      every row of every other consumer, is left as it was, and no row is
      added or removed. */
  function ClaimAll(t: DispatchTable, c: ConsumerId, now: Time): (r: DispatchTable)
    ensures r.Keys == t.Keys
    ensures forall k :: k in t && k.consumerId == c && t[k].nextTime <= now ==> r[k] == Claim(t[k], now)
    ensures forall k :: k in t && (k.consumerId != c || t[k].nextTime > now) ==> r[k] == t[k]
  {
    ClaimKeys(t, DueKeys(t, c, now), now)
  }

  /** A claimed row rests for its lease: until an hour has passed, the rows due
      are those that were due anyway minus those just claimed. In particular a
      second claim at the same time finds nothing. */
  lemma ClaimedRowsRest(t: DispatchTable, c: ConsumerId, now: Time, later: Time)
    requires now <= later < now + Hour
    ensures DueKeys(ClaimAll(t, c, now), c, later) == DueKeys(t, c, later) - DueKeys(t, c, now)
    ensures DueKeys(ClaimAll(t, c, now), c, now) == {}
  {
  }

  /** Claiming some of the rows due at `now` leaves exactly the rest due. */
  lemma DueAfterClaimKeys(t: DispatchTable, claimed: set<DispatchKey>, c: ConsumerId, now: Time)
    requires claimed <= DueKeys(t, c, now)
    ensures DueKeys(ClaimKeys(t, claimed, now), c, now) == DueKeys(t, c, now) - claimed
  {
  }

  /** Claiming one more due row extends the claimed set by that row. */
  lemma ClaimOneMore(t: DispatchTable, claimed: set<DispatchKey>, k: DispatchKey, now: Time)
    requires k in t
    ensures var u := ClaimKeys(t, claimed, now);
            u[k := Claim(u[k], now)] == ClaimKeys(t, claimed + {k}, now)
  {
  }

  /** Every claimed row gets the same new `next_time`, so the batch result's
      `ORDER BY next_time` puts no order on the claimed mails. */
  lemma ClaimAllGivesOneLease(t: DispatchTable, c: ConsumerId, now: Time, k1: DispatchKey, k2: DispatchKey)
    requires k1 in DueKeys(t, c, now) && k2 in DueKeys(t, c, now)
    ensures ClaimAll(t, c, now)[k1].nextTime == ClaimAll(t, c, now)[k2].nextTime == now + Hour
  {
  }

  /** `last_time < next_time` on every delivered row. No constraint enforces
      it; the operations keep it. */
  ghost predicate LeaseInvariant(t: DispatchTable) {
    forall k :: k in t && t[k].lastTime.Some? ==> t[k].lastTime.value < t[k].nextTime
  }

  /** Claims keep the table consistent: the keys, hence the foreign keys, do
      not change, the lease invariant holds, and no consumer gains or loses a
      visible mail. */
  lemma ClaimAllPreserves(db: Store, c: ConsumerId, now: Time, other: ConsumerId)
    ensures db.Valid() ==> db.(dispatches := ClaimAll(db.dispatches, c, now)).Valid()
    ensures LeaseInvariant(db.dispatches) ==> LeaseInvariant(ClaimAll(db.dispatches, c, now))
    ensures ConsumerSelect(db.(dispatches := ClaimAll(db.dispatches, c, now)), other) == ConsumerSelect(db, other)
  {
  }

  // ---------------------------------------------------------------------------
  // Acknowledgement

  /** `DELETE FROM dispatch WHERE mail_id = m AND consumer = c`. */
  function Acknowledge(t: DispatchTable, c: ConsumerId, m: MailId): (r: DispatchTable)
    ensures r.Keys == t.Keys - {DispatchKey(c, m)}
    ensures forall k :: k in r ==> r[k] == t[k]
  {
    t - {DispatchKey(c, m)}
  }

  /** 200 when a row was deleted, 404 when there was none. */
  function AcknowledgeStatus(t: DispatchTable, c: ConsumerId, m: MailId): (status: int)
    ensures status == 200 || status == 404
    ensures status == 200 <==> DispatchKey(c, m) in t
  {
    if DispatchKey(c, m) in t then 200 else 404
  }

  /** Acknowledging twice deletes nothing more the second time and answers
      404. */
  lemma AcknowledgeTwice(t: DispatchTable, c: ConsumerId, m: MailId)
    ensures Acknowledge(Acknowledge(t, c, m), c, m) == Acknowledge(t, c, m)
    ensures AcknowledgeStatus(Acknowledge(t, c, m), c, m) == 404
  {
  }

  /** An acknowledgement hides the mail from its consumer only: the caller no
      longer sees it, every other consumer sees what it saw, the mail itself
      stays archived and the store stays consistent. */
  lemma AcknowledgeHidesFromCallerOnly(db: Store, c: ConsumerId, m: MailId, other: ConsumerId)
    requires other != c
    ensures var db' := db.(dispatches := Acknowledge(db.dispatches, c, m));
            && ConsumerSelect(db', c) == ConsumerSelect(db, c) - {m}
            && ConsumerSelect(db', other) == ConsumerSelect(db, other)
            && db'.mails == db.mails
            && (db.Valid() ==> db'.Valid())
            && (LeaseInvariant(db.dispatches) ==> LeaseInvariant(db'.dispatches))
  {
  }

  // ---------------------------------------------------------------------------
  // Notifications

  /** A notification received on the consumer's channel at time `at`; its
      payload is a mail id. */
  datatype Notification = Notification(at: Time, mailId: MailId)

  /** One notification: the consumer's dispatch for the notified mail is
      claimed and the mail emitted only if that dispatch exists and is due;
      otherwise nothing changes and nothing is emitted. */
  function NotifyStep(t: DispatchTable, c: ConsumerId, n: Notification): (r: (DispatchTable, Option<MailId>))
    ensures var k := DispatchKey(c, n.mailId);
            && (r.1.Some? <==> k in t && t[k].nextTime <= n.at)
            && (r.1.Some? ==> r.1.value == n.mailId && r.0 == t[k := Claim(t[k], n.at)])
            && (r.1.None? ==> r.0 == t)
  {
    var k := DispatchKey(c, n.mailId);
    if k in t && t[k].nextTime <= n.at then (t[k := Claim(t[k], n.at)], Some(n.mailId))
    else (t, None)
  }

  /** The notifications handled in order: the final table and the mails
      emitted. */
  function NotifyAll(t: DispatchTable, c: ConsumerId, notes: seq<Notification>): (r: (DispatchTable, seq<MailId>))
    ensures r.0.Keys == t.Keys
    ensures |r.1| <= |notes|
    decreases |notes|
  {
    if notes == [] then (t, [])
    else
      var prev := NotifyAll(t, c, notes[..|notes| - 1]);
      var step := NotifyStep(prev.0, c, notes[|notes| - 1]);
      (step.0, if step.1.Some? then prev.1 + [step.1.value] else prev.1)
  }

  /** Handling notifications only ever claims: every emitted mail was
      dispatched to the consumer, rows of other consumers are untouched, and
      the lease invariant is kept. */
  lemma {:induction false} NotifyAllOnlyClaims(t: DispatchTable, c: ConsumerId, notes: seq<Notification>)
    ensures var r := NotifyAll(t, c, notes);
            && (forall m :: m in r.1 ==> DispatchKey(c, m) in t)
            && (forall k :: k in t && k.consumerId != c ==> r.0[k] == t[k])
            && (LeaseInvariant(t) ==> LeaseInvariant(r.0))
    decreases |notes|
  {
    if notes != [] {
      NotifyAllOnlyClaims(t, c, notes[..|notes| - 1]);
    }
  }

  /** Within one hour of `start`, notifications never emit a mail twice, nor a
      mail in `rested` whose lease runs to at least `start + Hour`; afterwards
      every emitted mail rests just as long. */
  lemma {:induction false} NotifyAllWithinHour(t: DispatchTable, c: ConsumerId, notes: seq<Notification>,
                                               start: Time, rested: set<MailId>)
    requires forall i :: 0 <= i < |notes| ==> start <= notes[i].at < start + Hour
    requires forall m :: m in rested ==> DispatchKey(c, m) in t && t[DispatchKey(c, m)].nextTime >= start + Hour
    ensures var r := NotifyAll(t, c, notes);
            && Loader.NoDuplicates(r.1)
            && (forall m :: m in r.1 ==> m !in rested)
            && (forall m :: m in rested || m in r.1 ==>
                  DispatchKey(c, m) in r.0 && r.0[DispatchKey(c, m)].nextTime >= start + Hour)
    decreases |notes|
  {
    if notes != [] {
      var init := notes[..|notes| - 1];
      var n := notes[|notes| - 1];
      NotifyAllWithinHour(t, c, init, start, rested);
      var prev := NotifyAll(t, c, init);
      var step := NotifyStep(prev.0, c, n);
      if step.1.Some? {
        assert n.mailId !in prev.1 && n.mailId !in rested;
      }
    }
  }

  // ---------------------------------------------------------------------------
  // The stream

  /** One turn of the stream's outer loop: a drain at `drainAt`, then the
      notifications received before the listener times out. */
  datatype Round = Round(drainAt: Time, notes: seq<Notification>)

  /** The table after the given rounds of the stream. */
  function StreamAll(t: DispatchTable, c: ConsumerId, rounds: seq<Round>): (r: DispatchTable)
    ensures r.Keys == t.Keys
    decreases |rounds|
  {
    if rounds == [] then t
    else
      var prev := StreamAll(t, c, rounds[..|rounds| - 1]);
      var last := rounds[|rounds| - 1];
      NotifyAll(ClaimAll(prev, c, last.drainAt), c, last.notes).0
  }

  /** Streaming keeps the lease invariant and never changes another
      consumer's rows; it adds and removes no row, so it keeps the store
      consistent too. */
  lemma {:induction false} StreamAllPreserves(t: DispatchTable, c: ConsumerId, rounds: seq<Round>)
    ensures var r := StreamAll(t, c, rounds);
            && (LeaseInvariant(t) ==> LeaseInvariant(r))
            && (forall k :: k in t && k.consumerId != c ==> r[k] == t[k])
    decreases |rounds|
  {
    if rounds != [] {
      var prev := StreamAll(t, c, rounds[..|rounds| - 1]);
      var last := rounds[|rounds| - 1];
      StreamAllPreserves(t, c, rounds[..|rounds| - 1]);
      NotifyAllOnlyClaims(ClaimAll(prev, c, last.drainAt), c, last.notes);
    }
  }

  /** The mails a drain at `now` claims: those of the consumer's due rows. */
  function DueMails(t: DispatchTable, c: ConsumerId, now: Time): (r: set<MailId>)
    ensures forall m :: m in r <==> DispatchKey(c, m) in DueKeys(t, c, now)
  {
    set k | k in DueKeys(t, c, now) :: k.mailId
  }

  /** What the given rounds of the stream send: the set of mails streamed, and
      the number of lines, one per claim. Each round sends every row due at
      its drain, then every mail its notifications claim. */
  function StreamEmitted(t: DispatchTable, c: ConsumerId, rounds: seq<Round>): (r: (set<MailId>, nat))
    decreases |rounds|
  {
    if rounds == [] then ({}, 0)
    else
      var prev := StreamEmitted(t, c, rounds[..|rounds| - 1]);
      var before := StreamAll(t, c, rounds[..|rounds| - 1]);
      var last := rounds[|rounds| - 1];
      var notified := NotifyAll(ClaimAll(before, c, last.drainAt), c, last.notes).1;
      (prev.0 + DueMails(before, c, last.drainAt) + (set m | m in notified),
       prev.1 + |DueKeys(before, c, last.drainAt)| + |notified|)
  }

  /** The stream sends only mails dispatched to the consumer. */
  lemma {:induction false} StreamEmittedDispatched(t: DispatchTable, c: ConsumerId, rounds: seq<Round>)
    ensures forall m :: m in StreamEmitted(t, c, rounds).0 ==> DispatchKey(c, m) in t
    decreases |rounds|
  {
    if rounds != [] {
      var init := rounds[..|rounds| - 1];
      var before := StreamAll(t, c, init);
      var last := rounds[|rounds| - 1];
      StreamEmittedDispatched(t, c, init);
      NotifyAllOnlyClaims(ClaimAll(before, c, last.drainAt), c, last.notes);
    }
  }

  /** `emitted` is, as a set and in number, what `StreamEmitted` gives for
      `rounds`. */
  ghost predicate Streamed(t: DispatchTable, c: ConsumerId, rounds: seq<Round>, emitted: seq<MailId>) {
    && (forall m :: m in emitted <==> m in StreamEmitted(t, c, rounds).0)
    && |emitted| == StreamEmitted(t, c, rounds).1
  }

  /** One more round extends what the stream has sent by the round's drain
      and by its notifications. */
  lemma StreamEmittedStep(t: DispatchTable, c: ConsumerId, rounds: seq<Round>, i: nat,
                          before: seq<MailId>, drained: seq<MailId>, notified: seq<MailId>)
    requires i < |rounds|
    requires Streamed(t, c, rounds[..i], before)
    requires forall m :: m in drained <==>
               DispatchKey(c, m) in DueKeys(StreamAll(t, c, rounds[..i]), c, rounds[i].drainAt)
    requires |drained| == |DueKeys(StreamAll(t, c, rounds[..i]), c, rounds[i].drainAt)|
    requires notified == NotifyAll(ClaimAll(StreamAll(t, c, rounds[..i]), c, rounds[i].drainAt), c, rounds[i].notes).1
    ensures Streamed(t, c, rounds[..i + 1], before + drained + notified)
  {
    StreamEmittedAt(t, c, rounds, i);
    var e0 := StreamEmitted(t, c, rounds[..i]);
    var e1 := StreamEmitted(t, c, rounds[..i + 1]);
    var due := DueKeys(StreamAll(t, c, rounds[..i]), c, rounds[i].drainAt);
    AppendEmitted(c, before, drained, notified, e0.0, e0.1, due, e1.0, e1.1);
  }

  /** Appending a round's drained and notified mails to what was emitted
      before gives the set and count one more round of `StreamEmitted`
      gives. */
  lemma AppendEmitted(c: ConsumerId, before: seq<MailId>, drained: seq<MailId>, notified: seq<MailId>,
                      s0: set<MailId>, n0: nat, due: set<DispatchKey>, s1: set<MailId>, n1: nat)
    requires (forall m :: m in before <==> m in s0) && |before| == n0
    requires (forall m :: m in drained <==> DispatchKey(c, m) in due) && |drained| == |due|
    requires n1 == n0 + |due| + |notified|
    requires forall m :: m in s1 <==> m in s0 || DispatchKey(c, m) in due || m in notified
    ensures forall m :: m in before + drained + notified <==> m in s1
    ensures |before + drained + notified| == n1
  {
  }

  /** The unfolding of `StreamEmitted` at round `i`, component by
      component. */
  lemma StreamEmittedAt(t: DispatchTable, c: ConsumerId, rounds: seq<Round>, i: nat)
    requires i < |rounds|
    ensures var before := StreamAll(t, c, rounds[..i]);
            var notified := NotifyAll(ClaimAll(before, c, rounds[i].drainAt), c, rounds[i].notes).1;
            && StreamEmitted(t, c, rounds[..i + 1]).1
               == StreamEmitted(t, c, rounds[..i]).1 + |DueKeys(before, c, rounds[i].drainAt)| + |notified|
            && forall m :: m in StreamEmitted(t, c, rounds[..i + 1]).0 <==>
                 m in StreamEmitted(t, c, rounds[..i]).0 || DispatchKey(c, m) in DueKeys(before, c, rounds[i].drainAt)
                 || m in notified
  {
    var prefix := rounds[..i + 1];
    assert prefix[..|prefix| - 1] == rounds[..i];
    assert prefix[|prefix| - 1] == rounds[i];
  }

  /** Every time in the rounds lies in the hour after `start`. */
  predicate WithinHourOf(rounds: seq<Round>, start: Time) {
    && (forall i :: 0 <= i < |rounds| ==> start <= rounds[i].drainAt < start + Hour)
    && (forall i, j :: 0 <= i < |rounds| && 0 <= j < |rounds[i].notes| ==>
          start <= rounds[i].notes[j].at < start + Hour)
  }

  /** No mail of `emitted` appears twice, and each rests in `t` until at
      least `start + Hour`. */
  ghost predicate Rested(t: DispatchTable, c: ConsumerId, start: Time, emitted: seq<MailId>) {
    && Loader.NoDuplicates(emitted)
    && forall m :: m in emitted ==> DispatchKey(c, m) in t && t[DispatchKey(c, m)].nextTime >= start + Hour
  }

  /** A drain within the hour after `start` emits no mail emitted before, and
      leaves every mail emitted so far resting until at least `start + Hour`. */
  lemma DrainRests(t: DispatchTable, c: ConsumerId, now: Time, start: Time, before: seq<MailId>, drained: seq<MailId>)
    requires start <= now < start + Hour
    requires Rested(t, c, start, before) && Loader.NoDuplicates(drained)
    requires forall m :: m in drained <==> DispatchKey(c, m) in DueKeys(t, c, now)
    ensures Rested(ClaimAll(t, c, now), c, start, before + drained)
  {
    Loader.NoDuplicatesAppend(before, drained);
  }

  /** Notifications within the hour after `start` emit no mail emitted before,
      and leave every mail emitted so far resting until at least
      `start + Hour`. */
  lemma NotifyRests(t: DispatchTable, c: ConsumerId, notes: seq<Notification>, start: Time, before: seq<MailId>)
    requires forall i :: 0 <= i < |notes| ==> start <= notes[i].at < start + Hour
    requires Rested(t, c, start, before)
    ensures Rested(NotifyAll(t, c, notes).0, c, start, before + NotifyAll(t, c, notes).1)
  {
    var rested := set m | m in before;
    NotifyAllWithinHour(t, c, notes, start, rested);
    Loader.NoDuplicatesAppend(before, NotifyAll(t, c, notes).1);
  }

  /** What a drain has emitted after claiming `claimed` out of the rows `due`
      on entry: each claimed mail once, in non-decreasing order of the
      original `next_time`, none later than any row still due. */
  ghost predicate Drained(start: DispatchTable, due: set<DispatchKey>, claimed: set<DispatchKey>,
                          c: ConsumerId, emitted: seq<MailId>)
    requires forall k :: k in due ==> k in start
  {
    && claimed <= due
    && |emitted| == |claimed|
    && Loader.NoDuplicates(emitted)
    && (forall m :: m in emitted <==> DispatchKey(c, m) in claimed)
    && (forall i, j :: 0 <= i < j < |emitted| ==>
          start[DispatchKey(c, emitted[i])].nextTime <= start[DispatchKey(c, emitted[j])].nextTime)
    && (forall i, k :: 0 <= i < |emitted| && k in due - claimed ==>
          start[DispatchKey(c, emitted[i])].nextTime <= start[k].nextTime)
  }

  lemma AllClaimed(due: set<DispatchKey>, claimed: set<DispatchKey>)
    requires claimed <= due && due - claimed == {}
    ensures claimed == due
  {
    assert due == claimed + (due - claimed);
  }

  /** `k` is a row of `rest` with the least `next_time` in `t`. */
  ghost predicate EarliestOf(t: DispatchTable, rest: set<DispatchKey>, k: DispatchKey)
    requires rest <= t.Keys
  {
    k in rest && forall k' :: k' in rest ==> t[k].nextTime <= t[k'].nextTime
  }

  /** An earliest due row of the partly claimed table is an earliest row among
      those due on entry and not yet claimed. */
  lemma EarliestCarriesOver(start: DispatchTable, claimed: set<DispatchKey>, c: ConsumerId, now: Time, k: DispatchKey)
    requires claimed <= DueKeys(start, c, now)
    requires var u := ClaimKeys(start, claimed, now);
             k in DueKeys(u, c, now) && forall k' :: k' in DueKeys(u, c, now) ==> u[k].nextTime <= u[k'].nextTime
    ensures EarliestOf(start, DueKeys(start, c, now) - claimed, k)
  {
    DueAfterClaimKeys(start, claimed, c, now);
  }

  /** Claiming an earliest row still due extends a drain by that row's mail. */
  lemma DrainStep(start: DispatchTable, due: set<DispatchKey>, claimed: set<DispatchKey>,
                  c: ConsumerId, emitted: seq<MailId>, k: DispatchKey)
    requires forall k :: k in due ==> k in start && k.consumerId == c
    requires Drained(start, due, claimed, c, emitted)
    requires EarliestOf(start, due - claimed, k)
    ensures Drained(start, due, claimed + {k}, c, emitted + [k.mailId])
  {
    assert k == DispatchKey(c, k.mailId);
    assert k.mailId !in emitted;
    var e := emitted + [k.mailId];
    assert forall i :: 0 <= i < |emitted| ==> e[i] == emitted[i];
  }

  /** The state of a drain that started from `start` and has claimed
      `claimed`: the table `t` has exactly those rows claimed, `next` is an
      earliest row still due (none once all are claimed), and `emitted` is
      what `Drained` says. */
  ghost predicate DrainInvariant(start: DispatchTable, c: ConsumerId, now: Time, claimed: set<DispatchKey>,
                                 emitted: seq<MailId>, t: DispatchTable, next: Option<DispatchKey>)
  {
    var due := DueKeys(start, c, now);
    && t == ClaimKeys(start, claimed, now)
    && claimed <= due
    && (next.None? ==> claimed == due)
    && (next.Some? ==> EarliestOf(start, due - claimed, next.value))
    && Drained(start, due, claimed, c, emitted)
  }

  /** What the earliest-due selection returns for table `t`. */
  ghost predicate SelectedEarliest(t: DispatchTable, c: ConsumerId, now: Time, r: Option<DispatchKey>) {
    && (r.None? <==> DueKeys(t, c, now) == {})
    && (r.Some? ==> r.value in DueKeys(t, c, now)
                    && forall k :: k in DueKeys(t, c, now) ==> t[r.value].nextTime <= t[k].nextTime)
  }

  /** A drain starts in its invariant. */
  lemma DrainBegins(start: DispatchTable, c: ConsumerId, now: Time, next: Option<DispatchKey>)
    requires SelectedEarliest(start, c, now, next)
    ensures DrainInvariant(start, c, now, {}, [], start, next)
  {
    var due := DueKeys(start, c, now);
    DueAfterClaimKeys(start, {}, c, now);
    assert ClaimKeys(start, {}, now) == start;
    if next.Some? {
      EarliestCarriesOver(start, {}, c, now, next.value);
    } else {
      AllClaimed(due, {});
    }
  }

  /** One turn of the drain keeps its invariant and leaves fewer rows due. */
  lemma DrainAdvance(start: DispatchTable, c: ConsumerId, now: Time, claimed: set<DispatchKey>,
                     emitted: seq<MailId>, t: DispatchTable, k: DispatchKey, next: Option<DispatchKey>)
    requires DrainInvariant(start, c, now, claimed, emitted, t, Some(k))
    requires k in t
    requires SelectedEarliest(t[k := Claim(t[k], now)], c, now, next)
    ensures DrainInvariant(start, c, now, claimed + {k}, emitted + [k.mailId], t[k := Claim(t[k], now)], next)
    ensures |DueKeys(start, c, now) - (claimed + {k})| < |DueKeys(start, c, now) - claimed|
  {
    var due := DueKeys(start, c, now);
    DrainStep(start, due, claimed, c, emitted, k);
    ClaimOneMore(start, claimed, k, now);
    assert due - (claimed + {k}) == (due - claimed) - {k};
    if next.Some? {
      EarliestCarriesOver(start, claimed + {k}, c, now, next.value);
    } else {
      DueAfterClaimKeys(start, claimed + {k}, c, now);
      AllClaimed(due, claimed + {k});
    }
  }

  /** A finished drain has claimed every row due on entry, as the bulk claim
      does, and emitted each of their mails once, oldest-due first. */
  lemma DrainEnds(start: DispatchTable, c: ConsumerId, now: Time, claimed: set<DispatchKey>,
                  emitted: seq<MailId>, t: DispatchTable)
    requires DrainInvariant(start, c, now, claimed, emitted, t, None)
    ensures t == ClaimAll(start, c, now)
    ensures Loader.NoDuplicates(emitted)
    ensures |emitted| == |DueKeys(start, c, now)|
    ensures forall m :: m in emitted <==> DispatchKey(c, m) in DueKeys(start, c, now)
    ensures forall i, j :: 0 <= i < j < |emitted| ==>
              start[DispatchKey(c, emitted[i])].nextTime <= start[DispatchKey(c, emitted[j])].nextTime
  {
  }

  /** `ORDER BY next_time LIMIT 1` over the consumer's due rows: one due row
      whose `next_time` is least, or none when nothing is due. */
  method SelectEarliestDue(t: DispatchTable, c: ConsumerId, now: Time) returns (r: Option<DispatchKey>)
    ensures r.None? <==> DueKeys(t, c, now) == {}
    ensures r.Some? ==> r.value in DueKeys(t, c, now)
                        && forall k :: k in DueKeys(t, c, now) ==> t[r.value].nextTime <= t[k].nextTime
  {
    var due := DueKeys(t, c, now);
    var remaining := due;
    r := None;
    while remaining != {}
      invariant remaining <= due
      invariant r.None? ==> remaining == due
      invariant r.Some? ==> r.value in due
                            && forall k :: k in due - remaining ==> t[r.value].nextTime <= t[k].nextTime
      decreases |remaining|
    {
      var k :| k in remaining;
      if r.None? || t[k].nextTime < t[r.value].nextTime {
        r := Some(k);
      }
      remaining := remaining - {k};
    }
  }

  // ---------------------------------------------------------------------------
  // Lookups, content negotiation

  const Json: string := "application/json"
  const Ndjson: string := "application/x-ndjson"
  const Rfc822: string := "message/rfc822"

  /** Werkzeug's `accept_mimetypes.best_match`: picks one of the offered types,
      or none. */
  type BestMatch = seq<string> -> Option<string>

  /** The negotiated type; a request without an `Accept` header gets JSON. */
  function Negotiate(accept: Option<BestMatch>, offered: seq<string>): (r: Option<string>)
    ensures accept.None? ==> r == Some(Json)
    ensures accept.Some? ==> r == accept.value(offered)
  {
    match accept
    case None => Some(Json)
    case Some(bestMatch) => bestMatch(offered)
  }

  /** The types an attachment is offered in, in order of preference: its own,
      JSON, plain text for a textual type only, then raw bytes. */
  function AttachmentCandidates(mimeType: string): (r: seq<string>)
    ensures |r| == if StartsWith(mimeType, TextPrefix) then 4 else 3
    ensures r[0] == mimeType && r[1] == Json && r[|r| - 1] == OctetStream
    ensures TextPlain in r[..|r| - 1] <==> StartsWith(mimeType, TextPrefix) || mimeType == TextPlain
    ensures StartsWith(mimeType, TextPrefix) ==> r[2] == TextPlain
  {
    var offered := [mimeType, Json];
    var offered := if StartsWith(mimeType, TextPrefix) then offered + [TextPlain] else offered;
    offered + [OctetStream]
  }

  /** The attachment behind the consumer's dispatch for `mailId`, with the
      given number. */
  function FindAttachment(db: Store, c: ConsumerId, mailId: MailId, number: int): (r: Option<Attachment>)
    ensures r.Some? <==> DispatchKey(c, mailId) in db.dispatches && mailId in db.mails
                         && AttachmentKey(mailId, number) in db.attachments
    ensures r.Some? ==> r.value == db.attachments[AttachmentKey(mailId, number)]
  {
    var key := AttachmentKey(mailId, number);
    if DispatchKey(c, mailId) in db.dispatches && mailId in db.mails && key in db.attachments then
      Some(db.attachments[key])
    else None
  }

  /** How an attachment is served: as stored, as plain text, as its JSON
      resource, or as raw bytes. */
  datatype Representation = AsNative | AsText | AsJson | AsBytes

  datatype AttachmentResponse =
    | AttachmentNotFound
    | AttachmentNotAcceptable
    | AttachmentServed(representation: Representation, attachment: Attachment)

  /** `GET /mail/<mail_id>/attachment/<number>`: 404 unless the caller has a
      dispatch for the mail and the mail has an attachment with that number;
      otherwise the negotiated type picks the representation, its own type
      taking precedence, and a type no branch handles gives 406. */
  function RetrieveAttachment(db: Store, c: ConsumerId, mailId: MailId, number: int,
                              accept: Option<BestMatch>): (r: AttachmentResponse)
    ensures r == AttachmentNotFound <==> FindAttachment(db, c, mailId, number).None?
    ensures r.AttachmentServed? ==> r.attachment == FindAttachment(db, c, mailId, number).value
    ensures r.AttachmentServed? ==>
              var chosen := Negotiate(accept, AttachmentCandidates(r.attachment.mimeType));
              && chosen.Some?
              && (r.representation == AsNative <==> chosen.value == r.attachment.mimeType)
              && (r.representation == AsJson ==> chosen.value == Json)
              && (r.representation == AsText ==> chosen.value == TextPlain)
              && (r.representation == AsBytes ==> chosen.value == OctetStream)
  {
    match FindAttachment(db, c, mailId, number)
    case None => AttachmentNotFound
    case Some(a) =>
      var chosen := Negotiate(accept, AttachmentCandidates(a.mimeType));
      if chosen == Some(a.mimeType) then AttachmentServed(AsNative, a)
      else if chosen == Some(TextPlain) then AttachmentServed(AsText, a)
      else if chosen == Some(Json) then AttachmentServed(AsJson, a)
      else if chosen == Some(OctetStream) then AttachmentServed(AsBytes, a)
      else AttachmentNotAcceptable
  }

  /** Every offered type is served: an attachment the caller may see is never
      refused with 406 when the negotiated type is one of the candidates, and
      without an `Accept` header it is served as JSON (or natively, when its
      own type is JSON). */
  lemma OfferedTypesAreServed(db: Store, c: ConsumerId, mailId: MailId, number: int, accept: Option<BestMatch>)
    requires FindAttachment(db, c, mailId, number).Some?
    ensures var a := FindAttachment(db, c, mailId, number).value;
            var chosen := Negotiate(accept, AttachmentCandidates(a.mimeType));
            chosen.Some? && chosen.value in AttachmentCandidates(a.mimeType) ==>
              RetrieveAttachment(db, c, mailId, number, accept).AttachmentServed?
    ensures accept.None? ==>
              var r := RetrieveAttachment(db, c, mailId, number, accept);
              r.AttachmentServed? && r.representation in {AsNative, AsJson}
  {
    var a := FindAttachment(db, c, mailId, number).value;
    var offered := AttachmentCandidates(a.mimeType);
    assert forall x :: x in offered ==> x == a.mimeType || x == Json || x == TextPlain || x == OctetStream;
  }

  /** An acknowledged mail's attachments are out of reach of the consumer that
      acknowledged it, whatever it asks for. */
  lemma AcknowledgedAttachmentsHidden(db: Store, c: ConsumerId, m: MailId, number: int, accept: Option<BestMatch>)
    ensures RetrieveAttachment(db.(dispatches := Acknowledge(db.dispatches, c, m)), c, m, number, accept)
            == AttachmentNotFound
  {
  }

  datatype MailResponse =
    | MailNotFound
    | MailNotAcceptable
    | MailAsText(mimeType: string, data: seq<Byte>)
    | MailAsJson(mail: Mail)

  /** `GET /mail/<id>`: plain text and `message/rfc822` serve the stored bytes,
      JSON the mail's resource; a mail outside `consumer_select` is 404 in
      every branch, and a visible mail in no offered type is 406. */
  function RetrieveMail(db: Store, c: ConsumerId, id: MailId, accept: Option<BestMatch>): (r: MailResponse)
    ensures r == MailNotFound <==> id !in ConsumerSelect(db, c)
    ensures r.MailAsText? ==> r.mimeType in {TextPlain, Rfc822} && r.data == db.mails[id].data
    ensures r.MailAsJson? ==> r.mail == db.mails[id]
    ensures r.MailAsText? ==> Some(r.mimeType) == Negotiate(accept, [TextPlain, Json, Rfc822])
    ensures r.MailAsJson? ==> Negotiate(accept, [TextPlain, Json, Rfc822]) == Some(Json)
    ensures r == MailNotAcceptable <==>
              id in ConsumerSelect(db, c)
              && Negotiate(accept, [TextPlain, Json, Rfc822]) !in {Some(TextPlain), Some(Json), Some(Rfc822)}
  {
    var chosen := Negotiate(accept, [TextPlain, Json, Rfc822]);
    if id !in ConsumerSelect(db, c) then MailNotFound
    else if chosen == Some(TextPlain) || chosen == Some(Rfc822) then MailAsText(chosen.value, db.mails[id].data)
    else if chosen == Some(Json) then MailAsJson(db.mails[id])
    else MailNotAcceptable
  }

  datatype SelectMode = Batch | Stream | SelectNotAcceptable

  /** `GET /mail`: JSON claims in one batch, NDJSON streams; anything else is
      406 whether or not anything is due. */
  function SelectMailMode(accept: Option<BestMatch>): (r: SelectMode)
    ensures accept.None? ==> r == Batch
    ensures r == Batch <==> Negotiate(accept, [Json, Ndjson]) == Some(Json)
    ensures r == Stream <==> Negotiate(accept, [Json, Ndjson]) == Some(Ndjson)
  {
    var chosen := Negotiate(accept, [Json, Ndjson]);
    if chosen == Some(Json) then Batch
    else if chosen == Some(Ndjson) then Stream
    else SelectNotAcceptable
  }

  /** The mails a batch claim at `now` returns: those of the consumer's due
      dispatches, joined to `mail`. */
  function ClaimedMails(db: Store, c: ConsumerId, now: Time): (r: set<MailId>)
    ensures forall m :: m in r <==> DispatchKey(c, m) in DueKeys(db.dispatches, c, now) && m in db.mails
  {
    set k | k in DueKeys(db.dispatches, c, now) && k.mailId in db.mails :: k.mailId
  }

  /** The batch returns only mails the consumer may see, and a second batch at
      the same time returns nothing. */
  lemma ClaimedMailsVisibleOnce(db: Store, c: ConsumerId, now: Time)
    ensures ClaimedMails(db, c, now) <= ConsumerSelect(db, c)
    ensures ClaimedMails(db.(dispatches := ClaimAll(db.dispatches, c, now)), c, now) == {}
  {
    ClaimedRowsRest(db.dispatches, c, now, now);
  }

  /** The rows of `mails` under the ids in `selected`, each once, in some
      order. */
  method JoinMails(mails: map<MailId, Mail>, selected: set<MailId>) returns (ids: seq<MailId>, rows: seq<Mail>)
    requires selected <= mails.Keys
    ensures Loader.NoDuplicates(ids)
    ensures forall m :: m in ids <==> m in selected
    ensures |rows| == |ids|
    ensures forall i :: 0 <= i < |ids| ==> ids[i] in mails && rows[i] == mails[ids[i]]
  {
    ids, rows := [], [];
    var remaining := selected;
    while remaining != {}
      invariant remaining <= selected
      invariant Loader.NoDuplicates(ids)
      invariant forall m :: m in ids <==> m in selected - remaining
      invariant |rows| == |ids|
      invariant forall i :: 0 <= i < |ids| ==> ids[i] in mails && rows[i] == mails[ids[i]]
      decreases |remaining|
    {
      var m :| m in remaining;
      assert m !in ids;
      ids, rows := ids + [m], rows + [mails[m]];
      remaining := remaining - {m};
    }
  }

  // ---------------------------------------------------------------------------
  // The server

  /** The database as the request handlers see it; each handler's commit is
      one atomic update of `db`. */
  class Server {
    var db: Store

    constructor (db: Store)
      ensures this.db == db
    {
      this.db := db;
    }

    /** The store is consistent and every delivered row is leased. */
    ghost predicate Valid()
      reads this
    {
      db.Valid() && LeaseInvariant(db.dispatches)
    }

    /** `delete_mail(id)` for consumer `c`. */
    method DeleteMail(c: ConsumerId, id: MailId) returns (status: int)
      modifies this
      ensures db == old(db).(dispatches := Acknowledge(old(db.dispatches), c, id))
      ensures status == AcknowledgeStatus(old(db.dispatches), c, id)
      ensures old(Valid()) ==> Valid()
    {
      var found := DispatchKey(c, id) in db.dispatches;
      db := db.(dispatches := db.dispatches - {DispatchKey(c, id)});
      status := if found then 200 else 404;
    }

    /** `select_mail_as_json()` for consumer `c` at `now`: claims every due
        dispatch of the consumer and returns the claimed mails, each once, in
        no particular order. */
    method SelectMailAsJson(c: ConsumerId, now: Time) returns (ids: seq<MailId>, mails: seq<Mail>)
      modifies this
      ensures db == old(db).(dispatches := ClaimAll(old(db.dispatches), c, now))
      ensures Loader.NoDuplicates(ids)
      ensures forall m :: m in ids <==> m in ClaimedMails(old(db), c, now)
      ensures |mails| == |ids|
      ensures forall i :: 0 <= i < |ids| ==> ids[i] in db.mails && mails[i] == db.mails[ids[i]]
      ensures old(Valid()) ==> Valid()
    {
      var claimed := ClaimedMails(db, c, now);
      db := db.(dispatches := ClaimAll(db.dispatches, c, now));
      ClaimAllPreserves(old(db), c, now, c);
      ids, mails := JoinMails(db.mails, claimed);
    }

    /** The inner `while` of `stream_mail` at `now`: claims one earliest-due
        dispatch at a time until none is due. Every dispatch due on entry is
        emitted exactly once, oldest-due first, and the table ends as the bulk
        claim leaves it. */
    method DrainDue(c: ConsumerId, now: Time) returns (emitted: seq<MailId>)
      modifies this
      ensures db == old(db).(dispatches := ClaimAll(old(db.dispatches), c, now))
      ensures Loader.NoDuplicates(emitted)
      ensures |emitted| == |DueKeys(old(db.dispatches), c, now)|
      ensures forall m :: m in emitted <==> DispatchKey(c, m) in DueKeys(old(db.dispatches), c, now)
      ensures forall i, j :: 0 <= i < j < |emitted| ==>
                old(db.dispatches)[DispatchKey(c, emitted[i])].nextTime
                <= old(db.dispatches)[DispatchKey(c, emitted[j])].nextTime
    {
      ghost var start := db.dispatches;
      ghost var claimed: set<DispatchKey> := {};
      emitted := [];
      var next := SelectEarliestDue(db.dispatches, c, now);
      DrainBegins(start, c, now, next);
      while next.Some?
        invariant db == old(db).(dispatches := db.dispatches)
        invariant DrainInvariant(start, c, now, claimed, emitted, db.dispatches, next)
        decreases |DueKeys(start, c, now) - claimed|
      {
        var k := next.value;
        ghost var t := db.dispatches;
        ghost var before := emitted;
        assert k in t;
        db := db.(dispatches := db.dispatches[k := Claim(db.dispatches[k], now)]);
        emitted := emitted + [k.mailId];
        next := SelectEarliestDue(db.dispatches, c, now);
        DrainAdvance(start, c, now, claimed, before, t, k, next);
        claimed := claimed + {k};
      }
      DrainEnds(start, c, now, claimed, emitted, db.dispatches);
    }

    /** The `for` over notifications in `stream_mail`. */
    method HandleNotifications(c: ConsumerId, notes: seq<Notification>) returns (emitted: seq<MailId>)
      modifies this
      ensures db == old(db).(dispatches := NotifyAll(old(db.dispatches), c, notes).0)
      ensures emitted == NotifyAll(old(db.dispatches), c, notes).1
    {
      emitted := [];
      for i := 0 to |notes|
        invariant db == old(db).(dispatches := NotifyAll(old(db.dispatches), c, notes[..i]).0)
        invariant emitted == NotifyAll(old(db.dispatches), c, notes[..i]).1
      {
        assert notes[..i + 1][..i] == notes[..i];
        var n := notes[i];
        var k := DispatchKey(c, n.mailId);
        if k in db.dispatches && db.dispatches[k].nextTime <= n.at {
          db := db.(dispatches := db.dispatches[k := Claim(db.dispatches[k], n.at)]);
          emitted := emitted + [n.mailId];
        }
      }
      assert notes[..|notes|] == notes;
    }

    /** `stream_mail(c)` over a finite number of turns of its outer loop. The
        mails streamed and the number of lines are those `StreamEmitted`
        gives, the table ends as `StreamAll` says, and when every time lies
        within an hour of the stream's start no mail is streamed twice. */
    method StreamMail(c: ConsumerId, rounds: seq<Round>) returns (emitted: seq<MailId>)
      modifies this
      ensures db == old(db).(dispatches := StreamAll(old(db.dispatches), c, rounds))
      ensures forall m :: m in emitted <==> m in StreamEmitted(old(db.dispatches), c, rounds).0
      ensures |emitted| == StreamEmitted(old(db.dispatches), c, rounds).1
      ensures forall m :: m in emitted ==> DispatchKey(c, m) in old(db.dispatches)
      ensures rounds != [] && WithinHourOf(rounds, rounds[0].drainAt) ==> Loader.NoDuplicates(emitted)
      ensures old(Valid()) ==> Valid()
    {
      ghost var within := rounds != [] && WithinHourOf(rounds, rounds[0].drainAt);
      ghost var start := if rounds != [] then rounds[0].drainAt else 0;
      emitted := [];
      for i := 0 to |rounds|
        invariant db == old(db).(dispatches := StreamAll(old(db.dispatches), c, rounds[..i]))
        invariant Streamed(old(db.dispatches), c, rounds[..i], emitted)
        invariant within ==> Rested(db.dispatches, c, start, emitted)
      {
        assert rounds[..i + 1][..i] == rounds[..i];
        var round := rounds[i];
        ghost var t0 := db.dispatches;
        ghost var e0 := emitted;
        var drained := DrainDue(c, round.drainAt);
        if within {
          assert start <= round.drainAt < start + Hour;
          DrainRests(t0, c, round.drainAt, start, emitted, drained);
        }
        emitted := emitted + drained;
        ghost var t1 := db.dispatches;
        var notified := HandleNotifications(c, round.notes);
        if within {
          assert forall j :: 0 <= j < |round.notes| ==> start <= round.notes[j].at < start + Hour;
          NotifyRests(t1, c, round.notes, start, emitted);
        }
        StreamEmittedStep(old(db.dispatches), c, rounds, i, e0, drained, notified);
        emitted := emitted + notified;
      }
      assert rounds[..|rounds|] == rounds;
      StreamEmittedDispatched(old(db.dispatches), c, rounds);
      StreamAllPreserves(old(db.dispatches), c, rounds);
      SameDispatchKeysPreserveValid(old(db), db.dispatches);
    }
  }
}
