/** The outbox under a running transaction. The locks of apply and rollback do
    not cover scheduler_outbox, and the transactions read committed rows: other
    sessions may commit insertions, and the consumer may release dedup keys,
    between any two statements
    (deploy/configure_official_cloud_routes.py:123-124, 164-182, 192;
    backend/internal/repository/scheduler_outbox_repo.go:30-57). */
module RouteOutbox {
  import opened RouteTables

  /** The rows other sessions have committed when the k-th insert of a
      transaction is executed; behind the last insert, when it commits. */
  type Others = nat -> multiset<Event>

  /** The rows the transaction itself has inserted, visible to nobody else
      until it commits. */
  function Own(others: Others, events: seq<Event>): multiset<Event> {
    if events == [] then multiset{} else
      var k := |events| - 1;
      var own := Own(others, events[..k]);
      if Taken(others(k) + own, events[k]) then own else own + multiset{events[k]}
  }

  /** The table once the transaction has committed. */
  function Final(others: Others, events: seq<Event>): multiset<Event> {
    others(|events|) + Own(others, events)
  }

  /** Events with keys of their own contents, all different. */
  ghost predicate Proper(events: seq<Event>) {
    && (forall i :: 0 <= i < |events| ==> Honest(events[i]) && events[i].key.Some?)
    && (forall i, j :: 0 <= i < j < |events| ==> events[i] != events[j])
  }

  /** The unique index on the dedup key spans the rows of all sessions at any
      moment, and other sessions name only groups that have been allotted. */
  ghost predicate Concurrent(others: Others, events: seq<Event>, next: nat) {
    forall k :: 0 <= k <= |events| ==>
      OutboxOk(others(k) + Own(others, events[..k])) && Allotted(others(k), next)
  }

  lemma ProperPrefix(events: seq<Event>, k: nat)
    requires Proper(events) && k <= |events|
    ensures Proper(events[..k])
  {}

  lemma ProperJoined(events: seq<Event>, more: seq<Event>)
    requires Proper(events) && Proper(more)
    requires forall i, j :: 0 <= i < |events| && 0 <= j < |more| ==> events[i] != more[j]
    ensures Proper(events + more)
  {
    var all := events + more;
    forall i, j | 0 <= i < j < |all| ensures all[i] != all[j] {
      if i < |events| <= j {
        assert all[i] == events[i] && all[j] == more[j - |events|];
      }
    }
  }

  lemma ConcurrentPrefix(others: Others, events: seq<Event>, next: nat, k: nat)
    requires Concurrent(others, events, next) && k <= |events|
    ensures Concurrent(others, events[..k], next)
  {
    forall j | 0 <= j <= k ensures OutboxOk(others(j) + Own(others, events[..k][..j])) && Allotted(others(j), next) {
      assert events[..k][..j] == events[..j];
    }
  }

  lemma OwnSnoc(others: Others, events: seq<Event>, e: Event)
    ensures Own(others, events + [e]) ==
            if Taken(others(|events|) + Own(others, events), e) then Own(others, events)
            else Own(others, events) + multiset{e}
  {
    assert (events + [e])[..|events|] == events;
  }

  /** In an orderly table a key is taken only by the very same event. */
  lemma TakenIsSame(o: multiset<Event>, e: Event)
    requires OutboxOk(o) && Honest(e) && e.key.Some?
    ensures Taken(o, e) <==> e in o
  {
    if f :| f in o && f.key == e.key {
      SameKeySameEvent(e, f);
    }
  }

  /** The rows `own` are exactly those of the events that were not pending at
      their insert. */
  ghost predicate InsertedExactly(others: Others, events: seq<Event>, own: multiset<Event>) {
    && (forall e :: e in own ==> e in events)
    && (forall k :: 0 <= k < |events| ==> (events[k] in own <==> events[k] !in others(k)))
  }

  lemma InsertedLast(others: Others, events: seq<Event>, own: multiset<Event>)
    requires events != [] && events[|events| - 1] !in events[..|events| - 1]
    requires InsertedExactly(others, events[..|events| - 1], own)
    ensures var k := |events| - 1;
            InsertedExactly(others, events, if events[k] in others(k) then own else own + multiset{events[k]})
  {
    var k := |events| - 1;
    var rest, e := events[..k], events[k];
    var grown := if e in others(k) then own else own + multiset{e};
    assert forall x :: x in rest ==> x in events;
    forall j | 0 <= j < |events| ensures events[j] in grown <==> events[j] !in others(j) {
      if j < k {
        assert rest[j] == events[j] && events[j] in rest;
      }
    }
  }

  lemma LastIsNew(events: seq<Event>)
    requires Proper(events) && events != []
    ensures events[|events| - 1] !in events[..|events| - 1]
  {}

  lemma StateAt(others: Others, events: seq<Event>, next: nat, k: nat)
    requires Concurrent(others, events, next) && k <= |events|
    ensures OutboxOk(others(k) + Own(others, events[..k]))
  {}

  /** One insert: the row goes in exactly when the event is not pending. */
  lemma OwnStep(others: Others, events: seq<Event>, next: nat)
    requires Proper(events) && Concurrent(others, events, next) && events != []
    requires InsertedExactly(others, events[..|events| - 1], Own(others, events[..|events| - 1]))
    ensures var k := |events| - 1;
            Own(others, events) ==
            if events[k] in others(k) then Own(others, events[..k]) else Own(others, events[..k]) + multiset{events[k]}
  {
    var k := |events| - 1;
    StateAt(others, events, next, k);
    TakenIsSame(others(k) + Own(others, events[..k]), events[k]);
    LastIsNew(events);
  }

  /** The transaction inserts exactly those of its events that were not pending
      when their insert was executed. */
  lemma {:induction false} OwnExactly(others: Others, events: seq<Event>, next: nat)
    requires Proper(events) && Concurrent(others, events, next)
    ensures InsertedExactly(others, events, Own(others, events))
    decreases |events|
  {
    if events != [] {
      var k := |events| - 1;
      ProperPrefix(events, k);
      ConcurrentPrefix(others, events, next, k);
      OwnExactly(others, events[..k], next);
      OwnStep(others, events, next);
      LastIsNew(events);
      InsertedLast(others, events, Own(others, events[..k]));
    }
  }

  /** Exactly when: an event of the transaction is pending at its commit if and
      only if the transaction inserted it, no such row having been pending at
      that moment, or the row that suppressed it has not been released since
      (or was put in again). */
  lemma PendingExactly(others: Others, events: seq<Event>, next: nat, k: nat)
    requires Proper(events) && Concurrent(others, events, next) && k < |events|
    ensures events[k] in Final(others, events) <==> events[k] !in others(k) || events[k] in others(|events|)
  {
    OwnExactly(others, events, next);
  }

  /** An event that names a group allotted by the transaction itself cannot be
      suppressed: it is pending at commit whatever other sessions do. */
  lemma FreshIsPending(others: Others, events: seq<Event>, next: nat, k: nat, g: nat)
    requires Proper(events) && Concurrent(others, events, next) && k < |events|
    requires Names(events[k], g) && g >= next
    ensures events[k] in Final(others, events)
  {
    OwnExactly(others, events, next);
    assert Allotted(others(k), next);
  }

  /** At commit no committed row of another session is lost, and nothing but
      the transaction's events is added; the table is orderly. */
  lemma FinalIsOrderly(others: Others, events: seq<Event>, next: nat, later: nat)
    requires Proper(events) && Concurrent(others, events, next) && next <= later
    requires forall e, g: nat :: e in events && Names(e, g) ==> g < later
    ensures OutboxOk(Final(others, events)) && Allotted(Final(others, events), later)
    ensures others(|events|) <= Final(others, events)
    ensures forall e :: e in Final(others, events) ==> e in others(|events|) || e in events
  {
    OwnExactly(others, events, next);
    assert events[..|events|] == events;
    assert OutboxOk(others(|events|) + Own(others, events[..|events|])) && Allotted(others(|events|), next);
  }

  // ------------------------------------------------------------ what is certain

  /** Others hold event `k` at its own insert and at no other moment. */
  function HeldAt(events: seq<Event>, k: nat): Others
    requires k < |events|
  {
    (j: nat) => if j == k then multiset{events[k]} else multiset{}
  }

  lemma {:induction false} OwnAreAsked(others: Others, events: seq<Event>)
    ensures forall e :: e in Own(others, events) ==> e in events
    decreases |events|
  {
    if events != [] {
      var k := |events| - 1;
      OwnAreAsked(others, events[..k]);
      assert forall e :: e in events[..k] ==> e in events;
    }
  }

  /** What the transaction holds after `j` inserts is orderly. */
  lemma {:induction false} HeldOwn(events: seq<Event>, k: nat, j: nat)
    requires Proper(events) && k < |events| && j <= |events|
    ensures OutboxOk(Own(HeldAt(events, k), events[..j]))
    decreases j
  {
    if j == 0 {
      NothingHeld(HeldAt(events, k), events[..j]);
    } else {
      HeldOwn(events, k, j - 1);
      HeldStep(events, k, j - 1);
    }
  }

  lemma NothingHeld(others: Others, events: seq<Event>)
    requires events == []
    ensures OutboxOk(Own(others, events))
  {}

  /** And so it is next to the row held. */
  lemma HeldIsOrderly(events: seq<Event>, k: nat, j: nat)
    requires Proper(events) && k < |events| && j <= |events|
    ensures OutboxOk(HeldAt(events, k)(j) + Own(HeldAt(events, k), events[..j]))
  {
    var own := Own(HeldAt(events, k), events[..j]);
    HeldOwn(events, k, j);
    assert multiset{} + own == own;
    if j == k {
      HeldNext(events, k, own);
    }
  }

  /** The next insert keeps the transaction's own rows orderly. */
  lemma HeldStep(events: seq<Event>, k: nat, j: nat)
    requires Proper(events) && k < |events| && j < |events|
    requires OutboxOk(Own(HeldAt(events, k), events[..j]))
    ensures OutboxOk(Own(HeldAt(events, k), events[..j + 1]))
  {
    assert events[..j + 1] == events[..j] + [events[j]];
    var others := HeldAt(events, k);
    var own := Own(others, events[..j]);
    assert |events[..j]| == j;
    OwnSnoc(others, events[..j], events[j]);
    if j == k {
      assert events[k] in others(k) + own;
    } else {
      assert others(j) + own == own;
      EnqueueDelivers(own, events[j]);
    }
  }

  /** The row held fits next to them: it is none of them. */
  lemma HeldNext(events: seq<Event>, k: nat, own: multiset<Event>)
    requires Proper(events) && k < |events| && OutboxOk(own)
    requires own == Own(HeldAt(events, k), events[..k])
    ensures OutboxOk(multiset{events[k]} + own)
  {
    OwnAreAsked(HeldAt(events, k), events[..k]);
    assert events[k] !in events[..k];
    EnqueueDelivers(own, events[k]);
    assert own + multiset{events[k]} == multiset{events[k]} + own;
  }

  ghost predicate NamesFresh(e: Event, next: nat) {
    exists g: nat :: g >= next && Names(e, g)
  }

  lemma HeldIsLost(events: seq<Event>, next: nat, k: nat)
    requires Proper(events) && k < |events| && !NamesFresh(events[k], next)
    ensures Concurrent(HeldAt(events, k), events, next)
    ensures events[k] !in Final(HeldAt(events, k), events)
  {
    var others := HeldAt(events, k);
    forall j | 0 <= j <= |events| ensures OutboxOk(others(j) + Own(others, events[..j])) && Allotted(others(j), next) {
      HeldIsOrderly(events, k, j);
    }
    PendingExactly(others, events, next, k);
  }

  /** An event is pending at commit whatever other sessions do. */
  ghost predicate Certain(events: seq<Event>, next: nat, k: nat)
    requires k < |events|
  {
    forall others: Others :: Concurrent(others, events, next) ==> events[k] in Final(others, events)
  }

  /** Exactly when: an event is pending at commit whatever other sessions do to the
      outbox, if and only if it names a group allotted by the transaction itself. */
  lemma CertainExactly(events: seq<Event>, next: nat, k: nat)
    requires Proper(events) && k < |events|
    ensures Certain(events, next, k) <==> NamesFresh(events[k], next)
  {
    if NamesFresh(events[k], next) {
      var g: nat :| g >= next && Names(events[k], g);
      forall others: Others | Concurrent(others, events, next) ensures events[k] in Final(others, events) {
        FreshIsPending(others, events, next, k, g);
      }
    } else {
      HeldIsLost(events, next, k);
    }
  }

  // ------------------------------------------------------------ nobody else writes

  /** No other session touches the outbox during the transaction. */
  function Quiet(o: multiset<Event>): Others {
    (k: nat) => o
  }

  lemma QuietStep(o: multiset<Event>, events: seq<Event>, e: Event)
    ensures o + Own(Quiet(o), events + [e]) == Enqueue(o + Own(Quiet(o), events), e)
  {
    OwnSnoc(Quiet(o), events, e);
    var own := Own(Quiet(o), events);
    assert o + own + multiset{e} == o + (own + multiset{e});
  }

  lemma {:induction false} QuietOwn(o: multiset<Event>, events: seq<Event>)
    requires Proper(events) && OutboxOk(o)
    ensures OutboxOk(o + Own(Quiet(o), events))
    decreases |events|
  {
    if events == [] {
      assert o + Own(Quiet(o), events) == o;
    } else {
      var k := |events| - 1;
      assert events == events[..k] + [events[k]];
      ProperPrefix(events, k);
      QuietOwn(o, events[..k]);
      QuietStep(o, events[..k], events[k]);
      EnqueueDelivers(o + Own(Quiet(o), events[..k]), events[k]);
    }
  }

  /** Undisturbed, a transaction leaves every one of its events pending. */
  lemma QuietDelivers(o: multiset<Event>, events: seq<Event>, next: nat)
    requires Proper(events) && OutboxOk(o) && Allotted(o, next)
    ensures Concurrent(Quiet(o), events, next)
    ensures o <= Final(Quiet(o), events)
    ensures forall e :: e in events ==> e in Final(Quiet(o), events)
  {
    forall k | 0 <= k <= |events| ensures OutboxOk(Quiet(o)(k) + Own(Quiet(o), events[..k])) {
      ProperPrefix(events, k);
      QuietOwn(o, events[..k]);
    }
    forall e | e in events ensures e in Final(Quiet(o), events) {
      var k :| 0 <= k < |events| && events[k] == e;
      PendingExactly(Quiet(o), events, next, k);
    }
  }

  /** Where all events are pending already, nothing is added. */
  lemma {:induction false} QuietIdle(o: multiset<Event>, events: seq<Event>)
    requires forall e :: e in events ==> e in o && e.key.Some?
    ensures Own(Quiet(o), events) == multiset{} && Final(Quiet(o), events) == o
    decreases |events|
  {
    if events != [] {
      var k := |events| - 1;
      assert events[k] in events;
      assert forall e :: e in events[..k] ==> e in events;
      QuietIdle(o, events[..k]);
      assert events[k] in o + multiset{};
    }
  }

  // ------------------------------------------------------------------ a lost event

  /** The event is pending when the transaction asks for it, so that the insert
      does nothing; the consumer releases the row before the commit. */
  function ReleasedAfter(e: Event): Others {
    (k: nat) => if k == 0 then multiset{e} else multiset{}
  }

  /** Nothing is then pending at commit, although the transaction asked for it. */
  lemma SuppressedThenReleased(e: Event, next: nat)
    requires Honest(e) && e.key.Some? && Allotted(multiset{e}, next)
    ensures Proper([e]) && Concurrent(ReleasedAfter(e), [e], next)
    ensures Final(ReleasedAfter(e), [e]) == multiset{}
  {
    var others := ReleasedAfter(e);
    assert [e][..0] == [] && [e][..1] == [e];
    assert others(0) + Own(others, []) == multiset{e};
    TakenIsSame(multiset{e}, e);
    assert Own(others, [e]) == multiset{};
    assert others(1) + Own(others, [e]) == multiset{};
  }
}
