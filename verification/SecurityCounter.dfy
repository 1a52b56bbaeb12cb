/**
 * The security counter that the publish coroutines and readAttribute share. A coroutine takes a number for its message
 * and advances the counter in one step, waits until the counter is stored, and then hands the message to the bus. The
 * numbers are unbounded here; the 32 bit register holds them modulo 2^32.
 */
module SecurityCounter {
  import opened Selection

  const REGISTER: nat := 0x1_0000_0000

  /** Where a coroutine is between two awaits; the number is that of the message it has prepared. */
  datatype Client = Writing(number: nat) | Ready(number: nat)

  datatype State = State(counter: nat, stored: nat, clients: map<nat, Client>, queue: seq<nat>, sent: seq<nat>)

  /** How the storage takes the value: when the write takes effect, or when it is issued and in the order of issue. */
  datatype Storage = ByReference | InOrder

  datatype Event =
    | Prepare(client: nat)
    | Stored(client: nat)
    | Failed(client: nat)
    | Send(client: nat)
    | Cancel(client: nat)
    | Restart

  function Remove(queue: seq<nat>, client: nat): (r: seq<nat>)
    ensures forall x :: x in r ==> x in queue && x != client
    ensures forall x :: x in queue && x != client ==> x in r
  {
    if queue == [] then [] else (if queue[0] == client then [] else [queue[0]]) + Remove(queue[1..], client)
  }

  predicate Enabled(storage: Storage, s: State, e: Event) {
    match e
    case Prepare(p) => p !in s.clients
    case Stored(p) => p in s.clients && s.clients[p].Writing? && (storage == InOrder ==> s.queue != [] && s.queue[0] == p)
    case Failed(p) => p in s.clients && s.clients[p].Writing?
    case Send(p) => p in s.clients && s.clients[p].Ready?
    case Cancel(p) => p in s.clients
    case Restart => true
  }

  /** An event that is not enabled does nothing. The status of a write is not looked at, so a failed one also resumes. */
  function Next(storage: Storage, s: State, e: Event): State {
    if !Enabled(storage, s, e) then s
    else
      match e
      case Prepare(p) =>
        s.(counter := s.counter + 1, clients := s.clients[p := Writing(s.counter)], queue := s.queue + [p])
      case Stored(p) =>
        s.(stored := if storage == ByReference then s.counter else s.clients[p].number + 1,
           clients := s.clients[p := Ready(s.clients[p].number)], queue := Remove(s.queue, p))
      case Failed(p) =>
        s.(clients := s.clients[p := Ready(s.clients[p].number)], queue := Remove(s.queue, p))
      case Send(p) =>
        s.(sent := s.sent + [s.clients[p].number], clients := s.clients - {p})
      case Cancel(p) =>
        s.(clients := s.clients - {p}, queue := Remove(s.queue, p))
      case Restart =>
        s.(counter := s.stored, clients := map[], queue := [])
  }

  function Run(storage: Storage, s: State, events: seq<Event>): State {
    if events == [] then s
    else Next(storage, Run(storage, s, events[..|events| - 1]), events[|events| - 1])
  }

  /** A device whose storage holds the counter value n. */
  function Initial(n: nat): State {
    State(n, n, map[], [], [])
  }

  /** Numbers in flight are new, and those that may be sent are covered by the stored value. */
  ghost predicate ClientsOk(s: State) {
    && (forall p :: p in s.clients ==> s.clients[p].number < s.counter && s.clients[p].number !in s.sent)
    && (forall p :: p in s.clients && s.clients[p].Ready? ==> s.clients[p].number < s.stored)
    && forall p, q :: p in s.clients && q in s.clients && p != q ==> s.clients[p].number != s.clients[q].number
  }

  /** The writes under way are those of the writing clients, oldest first. */
  ghost predicate QueueOk(s: State) {
    && (forall p :: p in s.queue <==> p in s.clients && s.clients[p].Writing?)
    && (forall p :: p in s.queue ==> s.clients[p].number >= s.stored)
    && Increasing(s.queue, s.clients)
  }

  ghost predicate Increasing(queue: seq<nat>, clients: map<nat, Client>) {
    forall i, j :: 0 <= i < j < |queue| && queue[i] in clients && queue[j] in clients ==>
      clients[queue[i]].number < clients[queue[j]].number
  }

  ghost predicate Safe(storage: Storage, s: State) {
    && s.stored <= s.counter
    && Distinct(s.sent) && (forall n :: n in s.sent ==> n < s.stored)
    && ClientsOk(s)
    && (storage == InOrder ==> QueueOk(s))
  }

  lemma {:induction false} RemoveIncreasing(queue: seq<nat>, clients: map<nat, Client>, p: nat)
    requires Increasing(queue, clients)
    ensures Increasing(Remove(queue, p), clients)
  {
    if queue != [] {
      assert forall i :: 0 <= i < |queue[1..]| ==> queue[1..][i] == queue[i + 1];
      RemoveIncreasing(queue[1..], clients, p);
      var r := Remove(queue[1..], p);
      forall j | 0 <= j < |r| && queue[0] in clients && r[j] in clients
        ensures clients[queue[0]].number < clients[r[j]].number
      {
        assert r[j] in queue[1..];
        var k :| 0 <= k < |queue[1..]| && queue[1..][k] == r[j];
        assert queue[k + 1] == r[j];
      }
    }
  }

  lemma PrepareSafe(storage: Storage, s: State, p: nat)
    requires Safe(storage, s) && p !in s.clients
    ensures Safe(storage, Next(storage, s, Prepare(p)))
  {
  }

  lemma StoredSafe(storage: Storage, s: State, p: nat)
    requires Safe(storage, s) && Enabled(storage, s, Stored(p))
    ensures Safe(storage, Next(storage, s, Stored(p)))
  {
    var t := Next(storage, s, Stored(p));
    if storage == InOrder {
      RemoveIncreasing(s.queue, s.clients, p);
      assert p in s.queue;
      forall q | q in t.queue
        ensures t.clients[q].number >= t.stored
      {
        assert q in s.queue && q != p;
        var k :| 0 <= k < |s.queue| && s.queue[k] == q;
        assert s.clients[s.queue[0]].number < s.clients[s.queue[k]].number;
      }
    }
  }

  lemma CancelSafe(storage: Storage, s: State, p: nat)
    requires Safe(storage, s) && p in s.clients
    ensures Safe(storage, Next(storage, s, Cancel(p)))
  {
    if storage == InOrder {
      RemoveIncreasing(s.queue, s.clients, p);
    }
  }

  lemma SendSafe(storage: Storage, s: State, p: nat)
    requires Safe(storage, s) && Enabled(storage, s, Send(p))
    ensures Safe(storage, Next(storage, s, Send(p)))
  {
  }

  lemma NextSafe(storage: Storage, s: State, e: Event)
    requires Safe(storage, s) && !e.Failed?
    ensures Safe(storage, Next(storage, s, e))
  {
    if Enabled(storage, s, e) {
      match e
      case Prepare(p) => PrepareSafe(storage, s, p);
      case Stored(p) => StoredSafe(storage, s, p);
      case Send(p) => SendSafe(storage, s, p);
      case Cancel(p) => CancelSafe(storage, s, p);
      case Restart =>
    }
  }

  lemma {:induction false} RunSafeFrom(storage: Storage, s: State, events: seq<Event>)
    requires Safe(storage, s) && forall e :: e in events ==> !e.Failed?
    ensures Safe(storage, Run(storage, s, events))
  {
    hide Safe, Next;
    if events != [] {
      RunSafeFrom(storage, s, events[..|events| - 1]);
      NextSafe(storage, Run(storage, s, events[..|events| - 1]), events[|events| - 1]);
    }
  }

  lemma RunSafe(storage: Storage, n: nat, events: seq<Event>)
    requires forall e :: e in events ==> !e.Failed?
    ensures Safe(storage, Run(storage, Initial(n), events))
  {
    RunSafeFrom(storage, Initial(n), events);
  }

  /**
   * Without failed writes no two messages of a run, restarts included, carry the same number, and two that carry the
   * same register value are at least 2^32 numbers apart.
   */
  lemma NoCounterReused(storage: Storage, n: nat, events: seq<Event>, i: nat, j: nat)
    requires forall e :: e in events ==> !e.Failed?
    requires var sent := Run(storage, Initial(n), events).sent; i < j < |sent|
    ensures var sent := Run(storage, Initial(n), events).sent;
            && sent[i] != sent[j]
            && (sent[i] % REGISTER == sent[j] % REGISTER ==>
                  sent[i] + REGISTER <= sent[j] || sent[j] + REGISTER <= sent[i])
  {
    RunSafe(storage, n, events);
    var sent := Run(storage, Initial(n), events).sent;
    var x, y := sent[i], sent[j];
    if x % REGISTER == y % REGISTER {
      assert x - y == REGISTER * (x / REGISTER - y / REGISTER);
    }
  }

  // ----- failed writes

  /** Every message that has been sent is below the stored value. */
  ghost predicate Covered(s: State) {
    forall n :: n in s.sent ==> n < s.stored
  }

  /** Failed writes included: numbers that have been sent or are in flight are distinct and below the counter. */
  ghost predicate Unrepeated(s: State) {
    && Distinct(s.sent) && (forall n :: n in s.sent ==> n < s.counter)
    && (forall p :: p in s.clients ==> s.clients[p].number < s.counter && s.clients[p].number !in s.sent)
    && forall p, q :: p in s.clients && q in s.clients && p != q ==> s.clients[p].number != s.clients[q].number
  }

  /** Only a restart can break that, and it does so exactly when a message has been sent that the stored value does not cover. */
  lemma NextUnrepeatedExactly(storage: Storage, s: State, e: Event)
    requires Unrepeated(s)
    ensures Unrepeated(Next(storage, s, e)) <==> (e.Restart? ==> Covered(s))
  {
  }

  /** At every restart of the run the stored value covers what has been sent. */
  ghost predicate RestartsCovered(storage: Storage, s: State, events: seq<Event>) {
    events == []
    || (RestartsCovered(storage, s, events[..|events| - 1])
        && (events[|events| - 1].Restart? ==> Covered(Run(storage, s, events[..|events| - 1]))))
  }

  /** Whatever writes fail, no number is repeated as long as restarts find everything covered. */
  lemma {:induction false} RunUnrepeated(storage: Storage, n: nat, events: seq<Event>)
    requires RestartsCovered(storage, Initial(n), events)
    ensures Unrepeated(Run(storage, Initial(n), events))
  {
    hide Next, Unrepeated, Covered;
    if events == [] {
      assert Unrepeated(Initial(n)) by { InitialUnrepeated(n); }
    } else {
      RunUnrepeated(storage, n, events[..|events| - 1]);
      NextUnrepeatedExactly(storage, Run(storage, Initial(n), events[..|events| - 1]), events[|events| - 1]);
    }
  }

  lemma InitialUnrepeated(n: nat)
    ensures Unrepeated(Initial(n))
  {
  }

  /** The same coroutine sends k messages one after the other. */
  function Rounds(p: nat, k: nat): seq<Event> {
    if k == 0 then [] else Rounds(p, k - 1) + [Prepare(p)] + [Stored(p)] + [Send(p)]
  }

  function From(n: nat, k: nat): (r: seq<nat>)
    ensures |r| == k && forall i :: 0 <= i < k ==> r[i] == n + i
  {
    seq(k, i => n + i)
  }

  /** A state with nothing in flight. */
  function Quiet(n: nat, sent: seq<nat>): State {
    State(n, n, map[], [], sent)
  }

  lemma RoundSends(storage: Storage, n: nat, sent: seq<nat>, p: nat)
    ensures Next(storage, Next(storage, Next(storage, Quiet(n, sent), Prepare(p)), Stored(p)), Send(p)) == Quiet(n + 1, sent + [n])
  {
    var none: map<nat, Client> := map[];
    assert Remove([p], p) == [];
    assert none[p := Writing(n)][p := Ready(n)] - {p} == none;
    assert [] + [p] == [p];
  }

  lemma RoundRuns(storage: Storage, s: State, events: seq<Event>, p: nat)
    ensures Run(storage, s, events + [Prepare(p)] + [Stored(p)] + [Send(p)])
            == Next(storage, Next(storage, Next(storage, Run(storage, s, events), Prepare(p)), Stored(p)), Send(p))
  {
    hide Run, Next;
    RunStep(storage, s, events, Prepare(p));
    RunStep(storage, s, events + [Prepare(p)], Stored(p));
    RunStep(storage, s, events + [Prepare(p)] + [Stored(p)], Send(p));
  }

  lemma NoRounds(storage: Storage, n: nat, sent: seq<nat>)
    ensures Run(storage, Quiet(n, sent), []) == Quiet(n, sent + From(n, 0))
  {
    assert sent + From(n, 0) == sent;
  }

  lemma OneMore(n: nat, sent: seq<nat>, k: nat)
    requires k > 0
    ensures sent + From(n, k - 1) + [n + k - 1] == sent + From(n, k)
  {
  }

  lemma {:induction false} RoundsSend(storage: Storage, n: nat, sent: seq<nat>, p: nat, k: nat)
    ensures Run(storage, Quiet(n, sent), Rounds(p, k)) == Quiet(n + k, sent + From(n, k))
  {
    hide Run, Next, Quiet, From;
    if k == 0 {
      NoRounds(storage, n, sent);
    } else {
      RoundsSend(storage, n, sent, p, k - 1);
      RoundRuns(storage, Quiet(n, sent), Rounds(p, k - 1), p);
      RoundSends(storage, n + k - 1, sent + From(n, k - 1), p);
      OneMore(n, sent, k);
    }
  }

  lemma {:induction false} RoundsDoNotFail(p: nat, k: nat)
    ensures forall e :: e in Rounds(p, k) ==> !e.Failed?
  {
    if k > 0 {
      RoundsDoNotFail(p, k - 1);
    }
  }

  /**
   * From any state in which no number has been repeated yet, a restart can lead to a repeated number, without any further
   * failed write, if and only if a message has been sent whose number is not below the stored value.
   */
  lemma RepeatsExactly(storage: Storage, s: State)
    requires Distinct(s.sent)
    ensures (exists events: seq<Event> ::
               (forall e :: e in events ==> !e.Failed?) && !Distinct(Run(storage, Next(storage, s, Restart), events).sent))
            <==> !Covered(s)
  {
    hide Run;
    var r := Next(storage, s, Restart);
    assert r == Quiet(s.stored, s.sent);
    if Covered(s) {
      assert Safe(storage, r);
      forall events: seq<Event> | forall e :: e in events ==> !e.Failed?
        ensures Distinct(Run(storage, r, events).sent)
      {
        RunSafeFrom(storage, r, events);
      }
    } else {
      var i :| 0 <= i < |s.sent| && s.sent[i] >= s.stored;
      var k := s.sent[i] - s.stored + 1;
      RoundsSend(storage, s.stored, s.sent, 0, k);
      RoundsDoNotFail(0, k);
      var after := Run(storage, r, Rounds(0, k)).sent;
      assert after[i] == after[|s.sent| + k - 1];
    }
  }

  /** It happens: a write fails, the message is sent, and after a restart the next one repeats its number. */
  lemma FailedWriteReuses(storage: Storage, n: nat, p: nat)
    ensures !Covered(Run(storage, Initial(n), [Prepare(p), Failed(p), Send(p)]))
    ensures Run(storage, Initial(n), [Prepare(p), Failed(p), Send(p), Restart, Prepare(p), Stored(p), Send(p)]).sent == [n, n]
  {
    var e3 := [Prepare(p), Failed(p), Send(p)];
    var e4 := e3 + [Restart];
    FailedRound(storage, n, p);
    hide Run, Next;
    RunStep(storage, Initial(n), e3, Restart);
    RunStep(storage, Initial(n), e4, Prepare(p));
    RunStep(storage, Initial(n), e4 + [Prepare(p)], Stored(p));
    RunStep(storage, Initial(n), e4 + [Prepare(p)] + [Stored(p)], Send(p));
    assert e4 + [Prepare(p)] + [Stored(p)] + [Send(p)]
           == [Prepare(p), Failed(p), Send(p), Restart, Prepare(p), Stored(p), Send(p)];
    RestartsQuiet(storage, State(n + 1, n, map[], [], [n]));
    RoundSends(storage, n, [n], p);
    assert [n] + [n] == [n, n];
    assert n in [n];
  }

  lemma RestartsQuiet(storage: Storage, s: State)
    ensures Next(storage, s, Restart) == Quiet(s.stored, s.sent)
  {
  }

  lemma FailedRound(storage: Storage, n: nat, p: nat)
    ensures Run(storage, Initial(n), [Prepare(p), Failed(p), Send(p)]) == State(n + 1, n, map[], [], [n])
  {
    var none: map<nat, Client> := map[];
    assert Remove([p], p) == [];
    assert none[p := Writing(n)][p := Ready(n)] - {p} == none;
    assert [] + [p] == [p] && [] + [n] == [n];
    assert [] + [Prepare(p)] + [Failed(p)] + [Send(p)] == [Prepare(p), Failed(p), Send(p)];
    RunStep(storage, Initial(n), [], Prepare(p));
    RunStep(storage, Initial(n), [] + [Prepare(p)], Failed(p));
    RunStep(storage, Initial(n), [] + [Prepare(p)] + [Failed(p)], Send(p));
  }

  /** A failed write does no harm once a later one has been stored. */
  lemma LaterWriteCovers(storage: Storage, n: nat, p: nat)
    ensures Covered(Run(storage, Initial(n), [Prepare(p), Failed(p), Send(p), Prepare(p), Stored(p), Send(p)]))
  {
    var e3 := [Prepare(p), Failed(p), Send(p)];
    FailedRound(storage, n, p);
    var s := State(n + 1, n, map[], [], [n]);
    var none: map<nat, Client> := map[];
    assert Remove([p], p) == [];
    assert none[p := Writing(n + 1)][p := Ready(n + 1)] - {p} == none;
    assert [] + [p] == [p];
    assert e3 + [Prepare(p)] + [Stored(p)] + [Send(p)] == [Prepare(p), Failed(p), Send(p), Prepare(p), Stored(p), Send(p)];
    RunStep(storage, Initial(n), e3, Prepare(p));
    RunStep(storage, Initial(n), e3 + [Prepare(p)], Stored(p));
    RunStep(storage, Initial(n), e3 + [Prepare(p)] + [Stored(p)], Send(p));
  }

  lemma RunStep(storage: Storage, s: State, events: seq<Event>, e: Event)
    ensures Run(storage, s, events + [e]) == Next(storage, Run(storage, s, events), e)
  {
    assert (events + [e])[..|events|] == events;
  }
}
