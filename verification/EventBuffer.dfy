/** The agent's store-and-forward event buffer and the flush protocol around it. */
module EventBuffer {

  const DEFAULT_CAPACITY := 10000
  const FLUSH_BATCH := 500

  /** An event with the sequence number it was given; the rest of its content is one payload. */
  datatype Event = Event(number: nat, payload: string)

  datatype State = State(events: seq<Event>, nextSeq: nat, capacity: nat, dropped: nat)

  // ---- specification of the operations ------------------------------------------------

  function Added(s: State, payload: string): State {
    var events := s.events + [Event(s.nextSeq + 1, payload)];
    var over := if |events| > s.capacity then |events| - s.capacity else 0;
    s.(events := events[over..], nextSeq := s.nextSeq + 1, dropped := s.dropped + over)
  }

  /** The first max events, or all of them when max is not positive. */
  function PendingOf(s: State, max: int): seq<Event> {
    if 0 < max < |s.events| then s.events[..max] else s.events
  }

  /** How many events at the front have a number up to the given one. */
  function UpTo(events: seq<Event>, number: nat): (n: nat)
    ensures n <= |events|
  {
    if events != [] && events[0].number <= number then 1 + UpTo(events[1..], number) else 0
  }

  function Acked(s: State, number: nat): State {
    s.(events := s.events[UpTo(s.events, number)..])
  }

  /** The buffer holds consecutive numbers ending at nextSeq, no more than its capacity. */
  predicate Contiguous(s: State) {
    && 0 < s.capacity && |s.events| <= s.capacity && |s.events| <= s.nextSeq
    && forall i | 0 <= i < |s.events| :: s.events[i].number == s.nextSeq - |s.events| + 1 + i
  }

  // ---- the buffer ---------------------------------------------------------------------

  class Buffer {
    var events: seq<Event>
    var nextSeq: nat
    var capacity: nat
    var dropped: nat

    ghost function Now(): State
      reads this
    {
      State(events, nextSeq, capacity, dropped)
    }

    constructor (requested: int)
      ensures Now() == State([], 0, if requested <= 0 then DEFAULT_CAPACITY else requested, 0)
      ensures Contiguous(Now())
    {
      events, nextSeq, dropped := [], 0, 0;
      capacity := if requested <= 0 then DEFAULT_CAPACITY else requested;
    }

    method Add(payload: string) returns (number: nat)
      requires Contiguous(Now())
      modifies this
      ensures Now() == Added(old(Now()), payload) && Contiguous(Now())
      ensures number == nextSeq
    {
      nextSeq := nextSeq + 1;
      events := events + [Event(nextSeq, payload)];
      if |events| > capacity {
        var over := |events| - capacity;
        events := events[over..];
        dropped := dropped + over;
      }
      return nextSeq;
    }

    method Pending(max: int) returns (out: seq<Event>)
      ensures out == PendingOf(Now(), max)
    {
      var n := |events|;
      if max > 0 && max < n {
        n := max;
      }
      out := events[..n];
    }

    method Ack(number: nat) returns (removed: nat)
      requires Contiguous(Now())
      modifies this
      ensures Now() == Acked(old(Now()), number) && Contiguous(Now())
      ensures removed == UpTo(old(events), number)
    {
      var i := 0;
      assert events[0..] == events;
      while i < |events| && events[i].number <= number
        invariant i <= |events|
        invariant UpTo(events, number) == i + UpTo(events[i..], number)
      {
        assert events[i..][1..] == events[i + 1..];
        i := i + 1;
      }
      if i > 0 {
        events := events[i..];
      }
      return i;
    }
  }

  // ---- the flush protocol -------------------------------------------------------------

  /** The buffer together with the batch in flight, every event ever sent, every event removed
      because the server acknowledged it, in order, and every payload ever added, in order. */
  datatype World = World(
    buffer: State, inFlight: seq<Event>, sent: set<Event>, acked: seq<Event>, added: seq<string>)

  /** Any goroutine adds an event; the flush sends a batch; the server's answer arrives or is lost. */
  datatype Action = Add(payload: string) | Send | Answer(number: nat) | Lose

  function Step(w: World, a: Action): World {
    match a
    case Add(payload) => w.(buffer := Added(w.buffer, payload), added := w.added + [payload])
    case Send =>
      if w.inFlight != [] then w
      else
        var batch := PendingOf(w.buffer, FLUSH_BATCH);
        w.(inFlight := batch, sent := w.sent + set e | e in batch)
    case Answer(number) =>
      if w.inFlight == [] then w
      else
        var n := UpTo(w.buffer.events, number);
        w.(buffer := Acked(w.buffer, number), inFlight := [], acked := w.acked + w.buffer.events[..n])
    case Lose => w.(inFlight := [])
  }

  function Run(w: World, actions: seq<Action>): World
    decreases |actions|
  {
    if actions == [] then w else Step(Run(w, actions[..|actions| - 1]), actions[|actions| - 1])
  }

  /** The server never acknowledges beyond the last event of the batch it was sent. */
  predicate ServerHonest(w: World, a: Action) {
    a.Answer? && w.inFlight != [] ==> a.number <= w.inFlight[|w.inFlight| - 1].number
  }

  ghost predicate HonestRun(w: World, actions: seq<Action>)
    decreases |actions|
  {
    actions != [] ==>
      HonestRun(w, actions[..|actions| - 1])
      && ServerHonest(Run(w, actions[..|actions| - 1]), actions[|actions| - 1])
  }

  /** Numbers assigned are exactly those acknowledged, dropped or still buffered. */
  predicate Balanced(w: World) {
    w.buffer.nextSeq == |w.acked| + w.buffer.dropped + |w.buffer.events|
  }

  /** Acknowledged events are in increasing number order, none twice, and precede all buffered ones. */
  predicate AckedInOrder(w: World) {
    && (forall i, j | 0 <= i < j < |w.acked| :: w.acked[i].number < w.acked[j].number)
    && forall e | e in w.acked :: 1 <= e.number <= w.buffer.nextSeq - |w.buffer.events|
  }

  /** What is still buffered of the range in flight is in the batch that was sent. */
  predicate FlightMatches(w: World) {
    && (forall e | e in w.inFlight :: e in w.sent)
    && (w.inFlight != [] ==>
          var last := w.inFlight[|w.inFlight| - 1].number;
          && last <= w.buffer.nextSeq
          && (forall e | e in w.inFlight :: e.number <= last)
          && forall e | e in w.buffer.events && e.number <= last :: e in w.inFlight)
  }

  predicate AckedWereSent(w: World) {
    forall e | e in w.acked :: e in w.sent
  }

  /** The event carries the payload that was added under its number. */
  predicate Genuine(w: World, e: Event) {
    1 <= e.number <= |w.added| && e.payload == w.added[e.number - 1]
  }

  predicate AllGenuine(w: World) {
    && w.buffer.nextSeq == |w.added|
    && (forall e | e in w.buffer.events :: Genuine(w, e)) && (forall e | e in w.sent :: Genuine(w, e))
  }

  predicate Sound(w: World) {
    && Contiguous(w.buffer) && Balanced(w) && AckedInOrder(w) && FlightMatches(w) && AckedWereSent(w)
    && AllGenuine(w)
  }

  lemma {:induction false} UpToCounts(events: seq<Event>, number: nat)
    ensures forall i | 0 <= i < UpTo(events, number) :: events[i].number <= number
    ensures UpTo(events, number) < |events| ==> events[UpTo(events, number)].number > number
  {
    if events != [] && events[0].number <= number {
      UpToCounts(events[1..], number);
    }
  }

  /** How many events an acknowledgement reaches, from the consecutive numbers. */
  lemma UpToIs(s: State, number: nat)
    requires Contiguous(s)
    ensures var before := s.nextSeq - |s.events|;
            UpTo(s.events, number)
            == if number <= before then 0 else if number >= s.nextSeq then |s.events| else number - before
  {
    UpToCounts(s.events, number);
    var n := UpTo(s.events, number);
    if n > 0 {
      assert s.events[n - 1].number <= number;
    }
  }

  lemma AddKeepsSound(w: World, payload: string)
    requires Sound(w)
    ensures Sound(Step(w, Add(payload)))
  {
    AddKeepsGenuine(w, payload);
    hide Genuine;
  }

  lemma AddKeepsGenuine(w: World, payload: string)
    requires AllGenuine(w)
    ensures AllGenuine(Step(w, Add(payload)))
  {
    var after := Step(w, Add(payload));
    assert forall e | Genuine(w, e) :: Genuine(after, e);
    forall e | e in after.buffer.events ensures Genuine(after, e) {
      assert e in w.buffer.events || e == Event(w.buffer.nextSeq + 1, payload);
    }
    hide Genuine;
  }

  lemma SendKeepsSound(w: World)
    requires Sound(w)
    ensures Sound(Step(w, Send))
  {
  }

  lemma AckedIs(s: State, number: nat)
    requires Contiguous(s)
    ensures var n := UpTo(s.events, number);
            Contiguous(Acked(s, number)) && Acked(s, number) == s.(events := s.events[n..])
  {
  }

  lemma AnswerKeepsOrder(w: World, number: nat)
    requires Contiguous(w.buffer) && Balanced(w) && AckedInOrder(w) && w.inFlight != []
    ensures Balanced(Step(w, Answer(number))) && AckedInOrder(Step(w, Answer(number)))
  {
    AckedIs(w.buffer, number);
    hide UpTo;
    var gone := w.buffer.events[..UpTo(w.buffer.events, number)];
    var low := w.buffer.nextSeq - |w.buffer.events|;
    assert forall i | 0 <= i < |gone| :: gone[i].number == low + 1 + i;
  }

  /** What the answer removes had been sent. */
  lemma AnswerReachesSent(w: World, number: nat)
    requires Contiguous(w.buffer) && FlightMatches(w) && w.inFlight != [] && ServerHonest(w, Answer(number))
    ensures forall e | e in w.buffer.events[..UpTo(w.buffer.events, number)] :: e in w.sent
  {
    UpToCounts(w.buffer.events, number);
    hide UpTo;
    var gone := w.buffer.events[..UpTo(w.buffer.events, number)];
    forall e | e in gone ensures e in w.sent {
      assert e in w.buffer.events && e.number <= number;
    }
  }

  lemma AnswerKeepsSound(w: World, number: nat)
    requires Sound(w) && ServerHonest(w, Answer(number))
    ensures Sound(Step(w, Answer(number)))
  {
    if w.inFlight != [] {
      AnswerKeepsOrder(w, number);
      AnswerReachesSent(w, number);
      AckedIs(w.buffer, number);
      hide UpTo, Balanced, AckedInOrder, Contiguous;
      var after := Step(w, Answer(number));
      assert after.inFlight == [];
      assert forall e | Genuine(w, e) :: Genuine(after, e);
      hide Genuine;
    }
  }

  /** Store and forward, over every interleaving of additions with flushes and with answers
      that arrive or get lost: the buffer stays contiguous and within capacity, every number is
      accounted for as acknowledged, dropped or buffered, an event is removed as acknowledged once,
      in order, and only if it had been sent, and every event buffered, sent or acknowledged carries
      the payload that was added under its number. */
  lemma {:induction false} NothingAckedUnsent(w: World, actions: seq<Action>)
    requires Sound(w) && HonestRun(w, actions)
    ensures Sound(Run(w, actions))
    decreases |actions|
  {
    if actions != [] {
      var before, a := Run(w, actions[..|actions| - 1]), actions[|actions| - 1];
      NothingAckedUnsent(w, actions[..|actions| - 1]);
      match a {
        case Add(payload) => AddKeepsSound(before, payload);
        case Send => SendKeepsSound(before);
        case Answer(number) => AnswerKeepsSound(before, number);
        case Lose =>
      }
    }
  }

  /** A run may start with a fresh buffer: nothing in flight, nothing sent. */
  lemma FreshIsSound(capacity: nat)
    requires capacity > 0
    ensures Sound(World(State([], 0, capacity, 0), [], {}, [], []))
  {
  }

  /** The honesty of the answer is needed and sufficient: an answer removes only events of the
      batch in flight exactly when it does not reach a buffered event beyond the end of the batch. */
  lemma AnswerSafeExactly(w: World, number: nat)
    requires Sound(w) && w.inFlight != []
    ensures var last := w.inFlight[|w.inFlight| - 1].number;
            var gone := w.buffer.events[..UpTo(w.buffer.events, number)];
            (forall e | e in gone :: e in w.inFlight) <==>
            (number <= last || w.buffer.nextSeq <= last
             || w.buffer.events == [] || number < w.buffer.events[0].number)
  {
    UpToCounts(w.buffer.events, number);
    var events, n := w.buffer.events, UpTo(w.buffer.events, number);
    var last := w.inFlight[|w.inFlight| - 1].number;
    if n > 0 && number > last && w.buffer.nextSeq > last {
      var gone := events[..n];
      assert gone[n - 1] in gone;
      assert n < |events| ==> events[n].number == gone[n - 1].number + 1;
    }
    assert forall e | e in events[..n] :: e in events;
  }

  /** A full buffer drops its oldest events, and only as many as it must. */
  lemma OldestDropped(s: State, payload: string)
    requires Contiguous(s)
    ensures var after, all := Added(s, payload), s.events + [Event(s.nextSeq + 1, payload)];
            && |after.events| == (if |s.events| < s.capacity then |s.events| + 1 else s.capacity)
            && after.events == all[|all| - |after.events|..]
            && after.dropped == s.dropped + |all| - |after.events|
  {
  }

  /** An acknowledgement removes exactly the events up to its number. */
  lemma AckRemovesExactly(s: State, number: nat)
    requires Contiguous(s)
    ensures var after := Acked(s, number);
            && after == s.(events := after.events) && Contiguous(after)
            && forall e :: e in after.events <==> e in s.events && e.number > number
  {
    UpToIs(s, number);
    var events, n := s.events, UpTo(s.events, number);
    var left := events[n..];
    assert forall i | 0 <= i < |left| :: left[i] == events[n + i];
    assert forall i | n <= i < |events| :: events[i] == left[i - n];
    hide UpTo;
  }

  /** A batch sent and acknowledged to its end. */
  function Flush(w: World): World {
    var sent := Step(w, Send);
    if sent.inFlight == [] then sent else Step(sent, Answer(sent.inFlight[|sent.inFlight| - 1].number))
  }

  function Flushes(w: World, n: nat): World {
    if n == 0 then w else Flush(Flushes(w, n - 1))
  }

  function BatchSize(s: State): nat {
    if |s.events| > FLUSH_BATCH then FLUSH_BATCH else |s.events|
  }

  /** The answer to the end of a batch reaches exactly the batch. */
  lemma BatchReached(s: State)
    requires Contiguous(s) && s.events != []
    ensures var n := BatchSize(s);
            PendingOf(s, FLUSH_BATCH) == s.events[..n] && n > 0 && UpTo(s.events, s.events[n - 1].number) == n
  {
    UpToIs(s, s.events[BatchSize(s) - 1].number);
    hide UpTo;
  }

  lemma FlushTakesBatch(w: World)
    requires Sound(w) && w.inFlight == []
    ensures var after, n := Flush(w), BatchSize(w.buffer);
            && Sound(after) && after.inFlight == []
            && after.buffer == w.buffer.(events := w.buffer.events[n..])
            && after.acked == w.acked + w.buffer.events[..n]
  {
    SendKeepsSound(w);
    var sent := Step(w, Send);
    if w.buffer.events != [] {
      BatchReached(w.buffer);
      var number := sent.inFlight[|sent.inFlight| - 1].number;
      AnswerKeepsSound(sent, number);
      hide Sound, UpTo, PendingOf, BatchSize;
    }
  }

  lemma FlushConserves(w: World)
    requires Sound(w) && w.inFlight == []
    ensures var after := Flush(w);
            && Sound(after) && after.inFlight == [] && after.buffer.dropped == w.buffer.dropped
            && |after.buffer.events| == (if |w.buffer.events| > 500 then |w.buffer.events| - 500 else 0)
            && after.acked + after.buffer.events == w.acked + w.buffer.events
  {
    FlushTakesBatch(w);
    hide Sound, Flush;
    Rejoined(w.acked, w.buffer.events, BatchSize(w.buffer));
  }

  lemma Rejoined(xs: seq<Event>, ys: seq<Event>, n: nat)
    requires n <= |ys|
    ensures (xs + ys[..n]) + ys[n..] == xs + ys
  {
  }

  /** Whatever is buffered gets through: with nothing added meanwhile, n successful flushes move the
      oldest 500 n events from the buffer to the acknowledged ones, in order, and drop none. */
  lemma {:induction false} FlushesDrain(w: World, n: nat)
    requires Sound(w) && w.inFlight == []
    ensures var after := Flushes(w, n);
            && Sound(after) && after.inFlight == [] && after.buffer.dropped == w.buffer.dropped
            && |after.buffer.events| == (if |w.buffer.events| > 500 * n then |w.buffer.events| - 500 * n else 0)
            && after.acked + after.buffer.events == w.acked + w.buffer.events
  {
    if n > 0 {
      FlushesDrain(w, n - 1);
      FlushConserves(Flushes(w, n - 1));
      hide Sound, Flush;
    }
  }
}
