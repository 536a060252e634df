/**
 * The incremental sync loop: fetch the page at the cursor, decode it and
 * send its batch, stop when the page is not full, otherwise advance the
 * cursor to the upstream's "last" marker plus one and sleep before the
 * next fetch.
 */
module Sync {
  import opened Wrappers
  import opened Trades
  import opened Store
  import Int64
  import StrConv

  /** Records per full page of the trade-history endpoint. */
  const PageSize: nat := 1000

  /** Nanoseconds slept between fetches (tradesRateLimit). */
  const TradesRateLimit: nat := 3_000_000_000

  /** What the loop does that the outside world sees. */
  datatype Event =
    | Fetch(pair: string, since: int)  // one request to the trade-history endpoint
    | Send(batch: seq<Query>)  // one batch sent to the database
    | Sleep(nanos: nat)        // one pause of the rate limiter

  /** The ways the loop ends the program early. */
  datatype Failure =
    | Transport               // http.Get or reading the body failed (log.Fatal)
    | NoResult                // the body has no "result" object (panic)
    | PairMissing             // "result" has no array under the pair (panic)
    | Malformed(error: DecodeError)
    | LastMissing             // a full page without a string "last" (panic)
    | BadLast(last: string)   // ParseInt rejected "last" (log.Fatal)

  datatype Status = CaughtUp | Aborted(failure: Failure)

  /**
   * The loop's fixed inputs: the trade-history endpoint as a function of
   * the pair and the cursor it is asked for (None when the request or the
   * read fails, else the body as decoded JSON), the float conversions, the
   * pair and the table.
   */
  datatype Session = Session(fetch: (string, int) -> Option<Json>, ops: FloatOps, pair: string, table: string)

  /** GetKrakenTrades for the session's pair: the "result" object of the body. */
  function ResultAt(s: Session, c: int): Result<map<string, Json>, Failure>
  {
    match s.fetch(s.pair, c)
    case None => Failure(Transport)
    case Some(body) =>
      if body.JObject? && "result" in body.fields && body.fields["result"].JObject?
      then Success(body.fields["result"].fields)
      else Failure(NoResult)
  }

  /** The page of records served at cursor c. */
  function PageAt(s: Session, c: int): Result<seq<Json>, Failure>
  {
    match ResultAt(s, c)
    case Failure(f) => Failure(f)
    case Success(result) =>
      if s.pair in result && result[s.pair].JArray? then Success(result[s.pair].items)
      else Failure(PairMissing)
  }

  /** The cursor after the page at c: its "last" marker, parsed, plus one. */
  function NextCursorAt(s: Session, c: int): Result<int, Failure>
  {
    match ResultAt(s, c)
    case Failure(f) => Failure(f)
    case Success(result) =>
      if "last" !in result || !result["last"].JString? then Failure(LastMissing)
      else match StrConv.ParseInt(result["last"].s)
        case None => Failure(BadLast(result["last"].s))
        case Some(v) => Success(Int64.Inc(v))
  }

  /** A "last" marker that Itoa would print for v yields the cursor v + 1. */
  lemma MarkerPlusOne(s: Session, c: int, v: int)
    requires ResultAt(s, c).Success?
    requires "last" in ResultAt(s, c).value && ResultAt(s, c).value["last"] == JString(StrConv.Itoa(v))
    requires Int64.InRange(v) && v < Int64.MaxInt64
    ensures NextCursorAt(s, c) == Success(v + 1)
  {
    StrConv.ParseItoa(v);
  }

  /** The page at c is fetched and decodes, so its batch is sent. */
  ghost predicate Written(s: Session, c: int)
  {
    PageAt(s, c).Success? && DecodeAll(s.ops, PageAt(s, c).value).Success?
  }

  /** The trades the page at c adds to the table (none when it is not written). */
  function PageTrades(s: Session, c: int): seq<Trade>
  {
    match PageAt(s, c)
    case Failure(_) => []
    case Success(page) =>
      match DecodeAll(s.ops, page)
      case Failure(_) => []
      case Success(ts) => ts
  }

  /** The page at c is written, is full, and its marker yields a next cursor: the loop goes on. */
  ghost predicate Full(s: Session, c: int)
  {
    Written(s, c) && |PageAt(s, c).value| == PageSize && NextCursorAt(s, c).Success?
  }

  /** From cursor c the loop goes on to cursor d. */
  ghost predicate Advances(s: Session, c: int, d: int)
  {
    Full(s, c) && NextCursorAt(s, c).value == d
  }

  datatype RoundEnd = Continue(next: int) | Stop(status: Status)

  datatype Round = Round(events: seq<Event>, trades: seq<Trade>, end: RoundEnd)

  /**
   * The events a round fetched at c can have: a fetch, then the page's
   * batch unless the page could not be read or decoded, then a sleep
   * exactly when the loop goes on.
   */
  ghost predicate RoundShape(pair: string, table: string, c: int, r: Round)
  {
    match r.end
    case Continue(_) => r.events == [Fetch(pair, c), Send(InsertBatch(table, r.trades)), Sleep(TradesRateLimit)]
    case Stop(CaughtUp) => r.events == [Fetch(pair, c), Send(InsertBatch(table, r.trades))]
    case Stop(Aborted(_)) =>
      r.events == [Fetch(pair, c), Send(InsertBatch(table, r.trades))] || (r.events == [Fetch(pair, c)] && r.trades == [])
  }

  ghost predicate WellShaped(pair: string, table: string, round: int -> Round)
  {
    forall c :: RoundShape(pair, table, c, round(c))
  }

  /**
   * One iteration of the loop at cursor c. The batch is sent before the
   * length check, so the last page, even an empty one, is written.
   */
  function RoundAt(s: Session, c: int): (r: Round)
    ensures RoundShape(s.pair, s.table, c, r)
    ensures r.events == [Fetch(s.pair, c)] <==> !Written(s, c)
    ensures r.trades == PageTrades(s, c)
    ensures r.end.Continue? <==> Full(s, c)
    ensures r.end.Continue? ==> r.end.next == NextCursorAt(s, c).value
    ensures r.end == Stop(CaughtUp) <==> Written(s, c) && |PageAt(s, c).value| != PageSize
  {
    match PageAt(s, c)
    case Failure(f) => Round([Fetch(s.pair, c)], [], Stop(Aborted(f)))
    case Success(page) =>
      match DecodeAll(s.ops, page)
      case Failure(e) => Round([Fetch(s.pair, c)], [], Stop(Aborted(Malformed(e))))
      case Success(ts) =>
        var sent := [Fetch(s.pair, c), Send(InsertBatch(s.table, ts))];
        if |page| != PageSize then Round(sent, ts, Stop(CaughtUp))
        else match NextCursorAt(s, c)
          case Failure(f) => Round(sent, ts, Stop(Aborted(f)))
          case Success(next) => Round(sent + [Sleep(TradesRateLimit)], ts, Continue(next))
  }

  /** The rounds of a session, as a function of the cursor. */
  function Rounds(s: Session): int -> Round
  {
    c => RoundAt(s, c)
  }

  lemma RoundsShaped(s: Session)
    ensures WellShaped(s.pair, s.table, Rounds(s))
  {
  }

  /** The outcome of the loop: its events, the rows it added, and how it ended (None: not within the fuel). */
  datatype SyncRun = SyncRun(events: seq<Event>, trades: seq<Trade>, status: Option<Status>)

  /**
   * The loop from cursor c over the given rounds, for at most `fuel`
   * iterations. The fuel is a proof device: the loop in the program has no
   * bound, and a run that ends within some fuel ends the same way with any
   * more (IterateFuel).
   */
  function Iterate(round: int -> Round, c: int, fuel: nat): SyncRun
    decreases fuel
  {
    if fuel == 0 then SyncRun([], [], None)
    else
      var rd := round(c);
      match rd.end
      case Stop(st) => SyncRun(rd.events, rd.trades, Some(st))
      case Continue(next) =>
        var rest := Iterate(round, next, fuel - 1);
        SyncRun(rd.events + rest.events, rd.trades + rest.trades, rest.status)
  }

  /** The loop of a session from cursor c. */
  function Run(s: Session, c: int, fuel: nat): SyncRun
  {
    Iterate(Rounds(s), c, fuel)
  }

  /** The cursors fetched, in order. */
  function Fetches(events: seq<Event>): seq<int>
    decreases |events|
  {
    if events == [] then []
    else (if events[0].Fetch? then [events[0].since] else []) + Fetches(events[1..])
  }

  function SleepCount(events: seq<Event>): nat
    decreases |events|
  {
    if events == [] then 0
    else (if events[0].Sleep? then 1 else 0) + SleepCount(events[1..])
  }

  /** Everything the batches sent insert, in order. */
  function SentTrades(events: seq<Event>): seq<Trade>
    decreases |events|
  {
    if events == [] then []
    else (if events[0].Send? then Inserted(events[0].batch) else []) + SentTrades(events[1..])
  }

  /** The trades of the rounds at the given cursors, one after another. */
  function RoundTrades(round: int -> Round, cs: seq<int>): seq<Trade>
    decreases |cs|
  {
    if cs == [] then [] else round(cs[0]).trades + RoundTrades(round, cs[1..])
  }

  /** The trades of the pages at the given cursors, one page after another. */
  function TradesAlong(s: Session, cs: seq<int>): seq<Trade>
    decreases |cs|
  {
    if cs == [] then [] else PageTrades(s, cs[0]) + TradesAlong(s, cs[1..])
  }

  lemma {:induction false} FetchesAppend(a: seq<Event>, b: seq<Event>)
    ensures Fetches(a + b) == Fetches(a) + Fetches(b)
    decreases |a|
  {
    if a == [] {
      assert a + b == b;
    } else {
      assert (a + b)[1..] == a[1..] + b;
      FetchesAppend(a[1..], b);
    }
  }

  lemma {:induction false} SleepCountAppend(a: seq<Event>, b: seq<Event>)
    ensures SleepCount(a + b) == SleepCount(a) + SleepCount(b)
    decreases |a|
  {
    if a == [] {
      assert a + b == b;
    } else {
      assert (a + b)[1..] == a[1..] + b;
      SleepCountAppend(a[1..], b);
    }
  }

  lemma {:induction false} SentTradesAppend(a: seq<Event>, b: seq<Event>)
    ensures SentTrades(a + b) == SentTrades(a) + SentTrades(b)
    decreases |a|
  {
    if a == [] {
      assert a + b == b;
    } else {
      assert (a + b)[1..] == a[1..] + b;
      SentTradesAppend(a[1..], b);
    }
  }

  /** The three projections of a trace distribute over concatenation. */
  lemma EventsAppend(a: seq<Event>, b: seq<Event>)
    ensures Fetches(a + b) == Fetches(a) + Fetches(b)
    ensures SleepCount(a + b) == SleepCount(a) + SleepCount(b)
    ensures SentTrades(a + b) == SentTrades(a) + SentTrades(b)
  {
    FetchesAppend(a, b);
    SleepCountAppend(a, b);
    SentTradesAppend(a, b);
  }

  /** What one round's events contribute: one fetch, its batch's trades, and a sleep exactly when the loop goes on. */
  lemma RoundCounts(pair: string, table: string, c: int, r: Round)
    requires RoundShape(pair, table, c, r)
    ensures Fetches(r.events) == [c]
    ensures SleepCount(r.events) == (if r.end.Continue? then 1 else 0)
    ensures SentTrades(r.events) == r.trades
  {
    var b := InsertBatch(table, r.trades);
    BatchInsertsPage(table, r.trades);
    SingleEvent(Fetch(pair, c));
    SingleEvent(Send(b));
    SingleEvent(Sleep(TradesRateLimit));
    if r.events == [Fetch(pair, c), Send(b)] {
      EventsAppend([Fetch(pair, c)], [Send(b)]);
    } else if r.events != [Fetch(pair, c)] {
      EventsAppend([Fetch(pair, c)], [Send(b)]);
      EventsAppend([Fetch(pair, c), Send(b)], [Sleep(TradesRateLimit)]);
    }
  }

  lemma SingleEvent(e: Event)
    ensures Fetches([e]) == (if e.Fetch? then [e.since] else [])
    ensures SleepCount([e]) == (if e.Sleep? then 1 else 0)
    ensures SentTrades([e]) == (if e.Send? then Inserted(e.batch) else [])
  {
  }

  /**
   * Over well-shaped rounds: the first fetch is at the start cursor, each
   * round but the last continues to the next fetched cursor, and the last
   * one stops with the run's status.
   */
  lemma {:induction false} IterateCursors(pair: string, table: string, round: int -> Round, c: int, fuel: nat)
    requires WellShaped(pair, table, round)
    requires Iterate(round, c, fuel).status.Some?
    ensures var cs := Fetches(Iterate(round, c, fuel).events);
      && |cs| >= 1
      && cs[0] == c
      && (forall i :: 0 <= i < |cs| - 1 ==> round(cs[i]).end == Continue(cs[i + 1]))
      && round(cs[|cs| - 1]).end == Stop(Iterate(round, c, fuel).status.value)
    decreases fuel
  {
    var rd := round(c);
    assert RoundShape(pair, table, c, rd);
    RoundCounts(pair, table, c, rd);
    if rd.end.Continue? {
      var rest := Iterate(round, rd.end.next, fuel - 1);
      IterateCursors(pair, table, round, rd.end.next, fuel - 1);
      EventsAppend(rd.events, rest.events);
      var cs' := Fetches(rest.events);
      var cs := Fetches(Iterate(round, c, fuel).events);
      assert cs == [c] + cs';
      forall i | 0 <= i < |cs| - 1 ensures round(cs[i]).end == Continue(cs[i + 1]) {
        if i > 0 {
          assert cs[i] == cs'[i - 1] && cs[i + 1] == cs'[i];
        }
      }
    }
  }

  /** Over well-shaped rounds: the rows added are the rounds' trades in fetch order, and exactly what the batches insert. */
  lemma {:induction false} IterateStore(pair: string, table: string, round: int -> Round, c: int, fuel: nat)
    requires WellShaped(pair, table, round)
    requires Iterate(round, c, fuel).status.Some?
    ensures Iterate(round, c, fuel).trades == RoundTrades(round, Fetches(Iterate(round, c, fuel).events))
    ensures Iterate(round, c, fuel).trades == SentTrades(Iterate(round, c, fuel).events)
    decreases fuel
  {
    var rd := round(c);
    assert RoundShape(pair, table, c, rd);
    RoundCounts(pair, table, c, rd);
    if rd.end.Continue? {
      var rest := Iterate(round, rd.end.next, fuel - 1);
      IterateStore(pair, table, round, rd.end.next, fuel - 1);
      EventsAppend(rd.events, rest.events);
      assert ([c] + Fetches(rest.events))[1..] == Fetches(rest.events);
    } else {
      assert [c][1..] == [];
    }
  }

  /**
   * Pacing: one sleep of tradesRateLimit less than there are fetches;
   * every sleep comes right before a fetch and every fetch but the first
   * right after a sleep, so consecutive fetches have exactly one sleep
   * between them and none follows the last.
   */
  lemma {:induction false} IteratePacing(pair: string, table: string, round: int -> Round, c: int, fuel: nat)
    requires WellShaped(pair, table, round)
    requires Iterate(round, c, fuel).status.Some?
    ensures var ev := Iterate(round, c, fuel).events;
      && |ev| >= 1
      && ev[0] == Fetch(pair, c)
      && SleepCount(ev) + 1 == |Fetches(ev)|
      && (forall i :: 0 <= i < |ev| && ev[i].Sleep? ==>
            ev[i].nanos == TradesRateLimit && i + 1 < |ev| && ev[i + 1].Fetch?)
      && (forall i :: 0 < i < |ev| && ev[i].Fetch? ==> ev[i - 1].Sleep?)
      && !ev[|ev| - 1].Sleep?
    decreases fuel
  {
    var rd := round(c);
    assert RoundShape(pair, table, c, rd);
    RoundCounts(pair, table, c, rd);
    if rd.end.Continue? {
      var rest := Iterate(round, rd.end.next, fuel - 1);
      IteratePacing(pair, table, round, rd.end.next, fuel - 1);
      EventsAppend(rd.events, rest.events);
      var ev := rd.events + rest.events;
      assert |rd.events| == 3 && rd.events[2].Sleep? && !rd.events[1].Fetch?;
      forall i | 0 <= i < |ev| && ev[i].Sleep?
        ensures ev[i].nanos == TradesRateLimit && i + 1 < |ev| && ev[i + 1].Fetch?
      {
        if i >= 3 {
          assert ev[i] == rest.events[i - 3];
          assert i + 1 < |ev| && ev[i + 1] == rest.events[i - 2];
        } else {
          assert i == 2;
          assert ev[3] == rest.events[0];
        }
      }
      forall i | 0 < i < |ev| && ev[i].Fetch? ensures ev[i - 1].Sleep? {
        if i > 3 {
          assert ev[i] == rest.events[i - 3] && ev[i - 1] == rest.events[i - 4];
        }
      }
      assert ev[|ev| - 1] == rest.events[|rest.events| - 1];
    }
  }

  /** A caught-up run ends on the batch of its last page, even an empty one: the insert precedes the length check. */
  lemma {:induction false} IterateEndsWithBatch(pair: string, table: string, round: int -> Round, c: int, fuel: nat)
    requires WellShaped(pair, table, round)
    requires Iterate(round, c, fuel).status == Some(CaughtUp)
    ensures var ev := Iterate(round, c, fuel).events; var cs := Fetches(ev);
      |ev| >= 2 && |cs| >= 1 && ev[|ev| - 1] == Send(InsertBatch(table, round(cs[|cs| - 1]).trades))
    decreases fuel
  {
    var rd := round(c);
    assert RoundShape(pair, table, c, rd);
    RoundCounts(pair, table, c, rd);
    IterateCursors(pair, table, round, c, fuel);
    if rd.end.Continue? {
      var rest := Iterate(round, rd.end.next, fuel - 1);
      IterateEndsWithBatch(pair, table, round, rd.end.next, fuel - 1);
      EventsAppend(rd.events, rest.events);
      assert (rd.events + rest.events)[|rd.events + rest.events| - 1] == rest.events[|rest.events| - 1];
    }
  }

  /** Every request in the events is for the given pair. */
  ghost predicate RequestsFor(pair: string, events: seq<Event>)
  {
    forall i :: 0 <= i < |events| && events[i].Fetch? ==> events[i].pair == pair
  }

  /** Over well-shaped rounds, every request of a run is for the rounds' pair. */
  lemma {:induction false} IterateRequests(pair: string, table: string, round: int -> Round, c: int, fuel: nat)
    requires WellShaped(pair, table, round)
    ensures RequestsFor(pair, Iterate(round, c, fuel).events)
    decreases fuel
  {
    if fuel > 0 {
      var rd := round(c);
      assert RoundShape(pair, table, c, rd);
      if rd.end.Continue? {
        var rest := Iterate(round, rd.end.next, fuel - 1);
        IterateRequests(pair, table, round, rd.end.next, fuel - 1);
        var ev := rd.events + rest.events;
        forall i | 0 <= i < |ev| && ev[i].Fetch? ensures ev[i].pair == pair {
          if i >= |rd.events| {
            assert ev[i] == rest.events[i - |rd.events|];
          }
        }
      }
    }
  }

  /** Over well-shaped rounds, a run's events end with those of the round at its last fetched cursor. */
  lemma {:induction false} IterateLastRound(pair: string, table: string, round: int -> Round, c: int, fuel: nat)
    requires WellShaped(pair, table, round)
    requires Iterate(round, c, fuel).status.Some?
    ensures var ev := Iterate(round, c, fuel).events; var cs := Fetches(ev);
      |cs| >= 1 &&
      var last := round(cs[|cs| - 1]).events;
      |last| <= |ev| && ev[|ev| - |last|..] == last
    decreases fuel
  {
    var rd := round(c);
    assert RoundShape(pair, table, c, rd);
    RoundCounts(pair, table, c, rd);
    if rd.end.Continue? {
      var rest := Iterate(round, rd.end.next, fuel - 1);
      IterateLastRound(pair, table, round, rd.end.next, fuel - 1);
      EventsAppend(rd.events, rest.events);
      var cs' := Fetches(rest.events);
      var ev := rd.events + rest.events;
      assert Fetches(ev) == [c] + cs';
      var last := round(cs'[|cs'| - 1]).events;
      assert ev[|ev| - |last|..] == rest.events[|rest.events| - |last|..];
    }
  }

  /** The fuel only bounds the proof: with more of it, a finished run is the same. */
  lemma {:induction false} IterateFuel(round: int -> Round, c: int, fuel: nat, more: nat)
    requires Iterate(round, c, fuel).status.Some?
    requires fuel <= more
    ensures Iterate(round, c, more) == Iterate(round, c, fuel)
    decreases fuel
  {
    var rd := round(c);
    if rd.end.Continue? {
      IterateFuel(round, rd.end.next, fuel - 1, more - 1);
    }
  }

  /**
   * The loop of a session stops exactly where the upstream stops serving
   * full pages: every fetch but the last was a full, decodable page whose
   * "last" marker, parsed and plus one, is the next fetch's cursor; the
   * last fetch is not such a page; and the run is caught up exactly when
   * that last page was written and is not full.
   */
  lemma RunCursors(s: Session, c: int, fuel: nat)
    requires Run(s, c, fuel).status.Some?
    ensures var cs := Fetches(Run(s, c, fuel).events);
      && |cs| >= 1
      && cs[0] == c
      && (forall i :: 0 <= i < |cs| - 1 ==> Advances(s, cs[i], cs[i + 1]))
      && !Full(s, cs[|cs| - 1])
      && (Run(s, c, fuel).status == Some(CaughtUp) <==>
            Written(s, cs[|cs| - 1]) && |PageAt(s, cs[|cs| - 1]).value| != PageSize)
  {
    RoundsShaped(s);
    IterateCursors(s.pair, s.table, Rounds(s), c, fuel);
    var cs := Fetches(Run(s, c, fuel).events);
    forall i | 0 <= i < |cs| - 1 ensures Advances(s, cs[i], cs[i + 1]) {
      assert Rounds(s)(cs[i]) == RoundAt(s, cs[i]);
    }
    assert Rounds(s)(cs[|cs| - 1]) == RoundAt(s, cs[|cs| - 1]);
  }

  /**
   * A run ends on a request with no batch after it exactly when its last
   * page could not be read or decoded: a page that is read and decoded is
   * always sent, and one that is not stops the program before any batch.
   */
  lemma RunLastRequest(s: Session, c: int, fuel: nat)
    requires Run(s, c, fuel).status.Some?
    ensures var ev := Run(s, c, fuel).events; var cs := Fetches(ev);
      |ev| >= 1 && |cs| >= 1 &&
      (ev[|ev| - 1] == Fetch(s.pair, cs[|cs| - 1]) <==> !Written(s, cs[|cs| - 1]))
  {
    RunCursors(s, c, fuel);
    RoundsShaped(s);
    IterateLastRound(s.pair, s.table, Rounds(s), c, fuel);
    var ev := Run(s, c, fuel).events;
    var cs := Fetches(ev);
    var r := RoundAt(s, cs[|cs| - 1]);
    assert Rounds(s)(cs[|cs| - 1]) == r;
    assert ev[|ev| - 1] == r.events[|r.events| - 1];
  }

  lemma {:induction false} TradesAlongRounds(s: Session, cs: seq<int>)
    ensures RoundTrades(Rounds(s), cs) == TradesAlong(s, cs)
    decreases |cs|
  {
    if cs != [] {
      assert Rounds(s)(cs[0]) == RoundAt(s, cs[0]);
      TradesAlongRounds(s, cs[1..]);
    }
  }

  /** The rows a session's loop adds are its decoded pages in fetch order, and exactly what its batches insert. */
  lemma RunStore(s: Session, c: int, fuel: nat)
    requires Run(s, c, fuel).status.Some?
    ensures Run(s, c, fuel).trades == TradesAlong(s, Fetches(Run(s, c, fuel).events))
    ensures Run(s, c, fuel).trades == SentTrades(Run(s, c, fuel).events)
  {
    RoundsShaped(s);
    IterateStore(s.pair, s.table, Rounds(s), c, fuel);
    TradesAlongRounds(s, Fetches(Run(s, c, fuel).events));
  }

  /** Exactly one sleep of tradesRateLimit between consecutive fetches of a session, none after the last. */
  lemma RunPacing(s: Session, c: int, fuel: nat)
    requires Run(s, c, fuel).status.Some?
    ensures var ev := Run(s, c, fuel).events;
      && |ev| >= 1
      && ev[0] == Fetch(s.pair, c)
      && SleepCount(ev) + 1 == |Fetches(ev)|
      && (forall i :: 0 <= i < |ev| && ev[i].Sleep? ==>
            ev[i].nanos == TradesRateLimit && i + 1 < |ev| && ev[i + 1].Fetch?)
      && (forall i :: 0 < i < |ev| && ev[i].Fetch? ==> ev[i - 1].Sleep?)
      && !ev[|ev| - 1].Sleep?
  {
    RoundsShaped(s);
    IteratePacing(s.pair, s.table, Rounds(s), c, fuel);
  }

  /** A caught-up session ends on the batch of its last page: the final short page, even an empty one, is inserted. */
  lemma RunEndsWithBatch(s: Session, c: int, fuel: nat)
    requires Run(s, c, fuel).status == Some(CaughtUp)
    ensures var ev := Run(s, c, fuel).events; var cs := Fetches(ev);
      |ev| >= 2 && |cs| >= 1 && ev[|ev| - 1] == Send(InsertBatch(s.table, PageTrades(s, cs[|cs| - 1])))
  {
    RoundsShaped(s);
    IterateEndsWithBatch(s.pair, s.table, Rounds(s), c, fuel);
    var cs := Fetches(Run(s, c, fuel).events);
    assert Rounds(s)(cs[|cs| - 1]) == RoundAt(s, cs[|cs| - 1]);
  }

  /** Every request a session's loop makes is for the session's pair, at every cursor. */
  lemma RunRequests(s: Session, c: int, fuel: nat)
    ensures RequestsFor(s.pair, Run(s, c, fuel).events)
  {
    RoundsShaped(s);
    IterateRequests(s.pair, s.table, Rounds(s), c, fuel);
  }

  /** A written page that is not full is the last one: one fetch, its batch, caught up. */
  lemma ShortPageStops(s: Session, c: int, fuel: nat)
    requires fuel > 0
    requires Written(s, c) && |PageAt(s, c).value| != PageSize
    ensures Run(s, c, fuel) ==
      SyncRun([Fetch(s.pair, c), Send(InsertBatch(s.table, PageTrades(s, c)))], PageTrades(s, c), Some(CaughtUp))
  {
  }

  /** A full page whose marker parses goes on: fetch, batch, sleep, then the run from the marker plus one. */
  lemma FullPageContinues(s: Session, c: int, fuel: nat)
    requires fuel > 0
    requires Full(s, c)
    ensures var rest := Run(s, NextCursorAt(s, c).value, fuel - 1);
      Run(s, c, fuel) ==
        SyncRun([Fetch(s.pair, c), Send(InsertBatch(s.table, PageTrades(s, c))), Sleep(TradesRateLimit)] + rest.events,
          PageTrades(s, c) + rest.trades, rest.status)
  {
  }

  /**
   * The state of the loop part-way through a run from start: the events so
   * far and the table so far, followed by the rest of the run from the
   * cursor, give the whole run.
   */
  ghost predicate Resumes(round: int -> Round, start: int, fuel: nat, stored: seq<Trade>,
                          events: seq<Event>, rows: seq<Trade>, cursor: int, left: nat)
  {
    var all := Iterate(round, start, fuel);
    var rest := Iterate(round, cursor, left);
    rest.status == all.status && events + rest.events == all.events && rows + rest.trades == stored + all.trades
  }

  /** One round keeps Resumes, or ends the run with its outcome. */
  lemma ResumesStep(round: int -> Round, start: int, fuel: nat, stored: seq<Trade>,
                    events: seq<Event>, rows: seq<Trade>, cursor: int, left: nat, r: Round)
    requires Iterate(round, start, fuel).status.Some?
    requires Resumes(round, start, fuel, stored, events, rows, cursor, left)
    requires r == round(cursor)
    ensures left > 0
    ensures r.end.Stop? ==>
      && Iterate(round, start, fuel).status == Some(r.end.status)
      && Iterate(round, start, fuel).events == events + r.events
      && stored + Iterate(round, start, fuel).trades == rows + r.trades
    ensures r.end.Continue? ==>
      Resumes(round, start, fuel, stored, events + r.events, rows + r.trades, r.end.next, left - 1)
  {
  }

  /**
   * A round function that agrees with the session's rounds wherever they
   * are computed, and whose run from start is the session's.
   */
  lemma AgreeingRounds(s: Session, start: int, fuel: nat) returns (round: int -> Round)
    ensures forall c {:trigger RoundAt(s, c)} :: round(c) == RoundAt(s, c)
    ensures Iterate(round, start, fuel) == Run(s, start, fuel)
  {
    round := Rounds(s);
    forall c ensures round(c) == RoundAt(s, c) {
      assert Rounds(s)(c) == RoundAt(s, c);
    }
  }

  /**
   * The body of the loop in main: fetch the page at the cursor, decode it,
   * send its batch, then stop on a page that is not full or else parse
   * "last" into the next cursor and sleep.
   */
  method PageRound(s: Session, cursor: int) returns (r: Round)
    ensures r == RoundAt(s, cursor)
  {
    var events := [Fetch(s.pair, cursor)];
    var page := PageAt(s, cursor);
    if page.Failure? {
      return Round(events, [], Stop(Aborted(page.error)));
    }
    var decoded := DecodePage(s.ops, page.value);
    if decoded.Failure? {
      return Round(events, [], Stop(Aborted(Malformed(decoded.error))));
    }
    var batch := BuildBatch(s.table, decoded.value);
    BatchInsertsPage(s.table, decoded.value);
    events := events + [Send(batch)];
    var inserted := Inserted(batch);
    if |page.value| != PageSize {
      return Round(events, inserted, Stop(CaughtUp));
    }
    var next := NextCursorAt(s, cursor);
    if next.Failure? {
      return Round(events, inserted, Stop(Aborted(next.error)));
    }
    events := events + [Sleep(TradesRateLimit)];
    r := Round(events, inserted, Continue(next.value));
  }

  /**
   * The loop in main (both copies): rounds until one stops, each round
   * fetched at the cursor the previous one produced. The table only
   * grows: its rows are the old ones followed by what the run adds.
   */
  method SyncLoop(s: Session, start: int, stored: seq<Trade>, ghost fuel: nat)
    returns (rows: seq<Trade>, events: seq<Event>, status: Status)
    requires Run(s, start, fuel).status.Some?
    ensures rows == stored + Run(s, start, fuel).trades
    ensures events == Run(s, start, fuel).events
    ensures status == Run(s, start, fuel).status.value
  {
    ghost var round := AgreeingRounds(s, start, fuel);
    var cursor := start;
    rows, events := stored, [];
    ghost var left := fuel;
    assert Resumes(round, start, fuel, stored, events, rows, cursor, left);
    while true
      invariant Resumes(round, start, fuel, stored, events, rows, cursor, left)
      decreases left
    {
      var r := PageRound(s, cursor);
      ResumesStep(round, start, fuel, stored, events, rows, cursor, left, r);
      events := events + r.events;
      rows := rows + r.trades;
      if r.end.Stop? {
        status := r.end.status;
        break;
      }
      cursor := r.end.next;
      left := left - 1;
    }
  }
}
