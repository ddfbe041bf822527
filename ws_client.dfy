/**
  The synchronisation logic of src/ws_client.rs: which websocket frames are
  forwarded as updates, and how each update is reconciled with the book by
  comparing the book's timestamp with the update's `prevTs`.

  The websocket, the channel between the reading task and the consuming loop,
  and the HTTP snapshot request are not modelled as such: the frames read are
  a sequence, the channel delivers them in order, and the n-th snapshot fetch
  returns `fetch(n)`, with None for a failed request.
*/
module WsClient {
  import opened Wrappers
  import opened Dto
  import opened Levels
  import opened OrderbookModel
  import Decimal

  const TopicPrefix: string := "orderbookupdate"
  const Ticker: string := "PERP_ETH_USDT"
  const SubscribeDepth: nat := 50

  // --------------------------------------------------------------- frames

  predicate IsOrderbookTopic(topic: string) {
    TopicPrefix <= topic
  }

  /** The channel named in the SUBSCRIBE command: `orderbookupdate@<symbol>@<depth>`. */
  function SubscriptionChannel(symbol: string, depth: nat): (channel: string)
    ensures IsOrderbookTopic(channel)
    ensures |channel| == |TopicPrefix| + |symbol| + |Decimal.NatToString(depth)| + 2
    ensures channel[|TopicPrefix|] == '@' && channel[|TopicPrefix| + 1 + |symbol|] == '@'
    ensures channel[|TopicPrefix| + 1..|TopicPrefix| + 1 + |symbol|] == symbol
    ensures Decimal.ParseDecimal(channel[|channel| - |Decimal.NatToString(depth)|..]) == Some(depth as real)
  {
    var digits := Decimal.NatToString(depth);
    var channel := TopicPrefix + "@" + symbol + "@" + digits;
    assert channel[|TopicPrefix| + 1..|TopicPrefix| + 1 + |symbol|] == symbol;
    assert channel[|channel| - |digits|..] == digits;
    Decimal.ParseNatToString(depth);
    channel
  }

  /**
    One websocket read: a text message that decodes as an update envelope,
    or anything else (a read error, a non-text message, or text that fails to
    decode), which the reading loop skips.
  */
  datatype Frame = Update(message: WsUpdate) | Other

  predicate Relevant(f: Frame) {
    f.Update? && IsOrderbookTopic(f.message.topic)
  }

  /** The payloads of the relevant frames, in arrival order. */
  function Relevants(frames: seq<Frame>): (r: seq<UpdateData>)
    ensures |r| <= |frames|
    ensures forall d :: d in r ==> exists i :: 0 <= i < |frames| && Relevant(frames[i]) && frames[i].message.data == d
    ensures forall i :: 0 <= i < |frames| && Relevant(frames[i]) ==> frames[i].message.data in r
  {
    if frames == [] then []
    else
      var init, f := frames[..|frames| - 1], frames[|frames| - 1];
      var r := Relevants(init) + (if Relevant(f) then [f.message.data] else []);
      assert forall i :: 0 <= i < |init| ==> init[i] == frames[i];
      r
  }

  /**
    Frames read one batch after another forward the first batch's payloads
    and then the second's: arrival order is kept and nothing is merged or
    dropped across the boundary.
  */
  lemma {:induction false} RelevantsAppend(a: seq<Frame>, b: seq<Frame>)
    ensures Relevants(a + b) == Relevants(a) + Relevants(b)
  {
    if b != [] {
      var ab, init, last := a + b, b[..|b| - 1], b[|b| - 1];
      assert ab[..|ab| - 1] == a + init;
      assert ab[|ab| - 1] == last;
      RelevantsAppend(a, init);
    } else {
      assert a + b == a;
    }
  }

  /** A single frame forwards its payload exactly when it is relevant. */
  lemma RelevantsSingle(f: Frame)
    ensures Relevants([f]) == if Relevant(f) then [f.message.data] else []
  {
    assert [f][..0] == [];
  }

  /**
    What the reading task sends down the channel. The first frame read is
    the server's reply to the subscription and is consumed without being
    forwarded, whatever it holds.
  */
  function Forwarded(frames: seq<Frame>): seq<UpdateData> {
    if frames == [] then [] else Relevants(frames[1..])
  }

  /** The reading loop of `handle_ws_stream`, frames consumed one at a time. */
  method Ingest(frames: seq<Frame>) returns (queue: seq<UpdateData>)
    ensures queue == Forwarded(frames)
  {
    queue := [];
    if frames == [] {
      return;
    }
    var rest := frames[1..];
    var i := 0;
    while i < |rest|
      invariant 0 <= i <= |rest|
      invariant queue == Relevants(rest[..i])
    {
      assert rest[..i + 1][..i] == rest[..i];
      var frame := rest[i];
      if frame.Update? && IsOrderbookTopic(frame.message.topic) {
        queue := queue + [frame.message.data];
      }
      i := i + 1;
    }
    assert rest[..i] == rest;
  }

  // ------------------------------------------------------- reconciliation

  datatype Phase = Bootstrap | Resync

  /**
    The consuming side of a session: running with a book and a count of
    snapshot fetches made so far, or stopped because a fetch failed (the
    source unwraps the fetch result, so a failure ends the process).
  */
  datatype Session =
    | Running(book: BookState, fetches: nat)
    | Aborted(phase: Phase, book: BookState)

  /**
    One pass of the consuming loop: equal timestamps apply the update; a
    book behind the update's predecessor fetches a snapshot and replaces
    the book with it, dropping the update; a book ahead ignores the update.
  */
  function Reconcile(s: Session, update: UpdateData, fetch: nat -> Option<Snapshot>): Session {
    match s
    case Aborted(_, _) => s
    case Running(book, k) =>
      if book.lastTs == update.prevTs then Running(Merge(book, update), k)
      else if book.lastTs < update.prevTs then
        match fetch(k)
        case Some(snapshot) => Running(FromSnapshot(snapshot), k + 1)
        case None => Aborted(Resync, book)
      else s
  }

  /** The updates reconciled in order. */
  function Consume(s: Session, updates: seq<UpdateData>, fetch: nat -> Option<Snapshot>): Session {
    if updates == [] then s
    else Reconcile(Consume(s, updates[..|updates| - 1], fetch), updates[|updates| - 1], fetch)
  }

  /**
    `connect_ws` after the connection is up: a new book, the bootstrap
    snapshot (fetch number 0), then every update in order.
  */
  function SessionOf(updates: seq<UpdateData>, fetch: nat -> Option<Snapshot>): Session {
    match fetch(0)
    case None => Aborted(Bootstrap, Empty())
    case Some(snapshot) => Consume(Running(FromSnapshot(snapshot), 1), updates, fetch)
  }

  /**
    One iteration of the `while let Some(update)` loop on the live book,
    with `fetches` snapshot requests made before it.
  */
  method Step(book: Orderbook, update: UpdateData, fetch: nat -> Option<Snapshot>, fetches: nat)
    returns (s: Session)
    modifies book
    ensures s == Reconcile(Running(old(book.State()), fetches), update, fetch)
    ensures book.State() == s.book
  {
    if book.LastTs() == update.prevTs {
      book.Update(update);
      s := Running(book.State(), fetches);
    } else if book.LastTs() < update.prevTs {
      var fetched := fetch(fetches);
      if fetched.None? {
        s := Aborted(Resync, book.State());
        return;
      }
      book.ApplySnapshot(fetched.value);
      s := Running(book.State(), fetches + 1);
    } else {
      s := Running(book.State(), fetches);
    }
  }

  /** Bootstrap: a new book, then the first snapshot before any update is looked at. */
  method Run(updates: seq<UpdateData>, fetch: nat -> Option<Snapshot>) returns (book: Orderbook, s: Session)
    ensures fresh(book)
    ensures s == SessionOf(updates, fetch)
    ensures book.State() == s.book
  {
    book := new Orderbook();
    var first := fetch(0);
    if first.None? {
      s := Aborted(Bootstrap, book.State());
      return;
    }
    book.ApplySnapshot(first.value);
    s := ConsumeUpdates(book, Running(book.State(), 1), updates, fetch);
  }

  /** The `while let Some(update)` loop: updates in order until the channel is empty or a fetch fails. */
  method ConsumeUpdates(book: Orderbook, start: Session, updates: seq<UpdateData>, fetch: nat -> Option<Snapshot>)
    returns (s: Session)
    requires start.Running? && book.State() == start.book
    modifies book
    ensures s == Consume(start, updates, fetch)
    ensures book.State() == s.book
  {
    s := start;
    var i := 0;
    while i < |updates| && s.Running?
      invariant 0 <= i <= |updates|
      invariant s == Consume(start, updates[..i], fetch)
      invariant book.State() == s.book
    {
      ConsumePush(start, updates, i, fetch);
      s := Step(book, updates[i], fetch, s.fetches);
      i := i + 1;
    }
    if i < |updates| {
      assert updates[..i] + updates[i..] == updates;
      ConsumeAppend(start, updates[..i], updates[i..], fetch);
      AbortedIsFinal(s, updates[i..], fetch);
    } else {
      assert updates[..i] == updates;
    }
  }

  /** The whole session: the reading task's output fed to the consuming loop. */
  method ConnectWs(frames: seq<Frame>, fetch: nat -> Option<Snapshot>) returns (book: Orderbook, s: Session)
    ensures fresh(book)
    ensures s == SessionOf(Forwarded(frames), fetch)
    ensures book.State() == s.book
  {
    var queue := Ingest(frames);
    book, s := Run(queue, fetch);
  }

  // ----------------------------------------------------------- properties

  lemma {:induction false} AbortedIsFinal(s: Session, updates: seq<UpdateData>, fetch: nat -> Option<Snapshot>)
    requires s.Aborted?
    ensures Consume(s, updates, fetch) == s
  {
    if updates != [] {
      AbortedIsFinal(s, updates[..|updates| - 1], fetch);
    }
  }

  /** Reconciling one more update continues from where the earlier ones left the session. */
  lemma ConsumePush(s: Session, updates: seq<UpdateData>, i: nat, fetch: nat -> Option<Snapshot>)
    requires i < |updates|
    ensures Consume(s, updates[..i + 1], fetch) == Reconcile(Consume(s, updates[..i], fetch), updates[i], fetch)
  {
    assert updates[..i + 1][..i] == updates[..i];
  }

  lemma {:induction false} ConsumeAppend(s: Session, a: seq<UpdateData>, b: seq<UpdateData>, fetch: nat -> Option<Snapshot>)
    ensures Consume(s, a + b, fetch) == Consume(Consume(s, a, fetch), b, fetch)
  {
    if b == [] {
      assert a + b == a;
    } else {
      var ab, init, last := a + b, b[..|b| - 1], b[|b| - 1];
      assert ab[..|ab| - 1] == a + init;
      assert ab[|ab| - 1] == last;
      calc {
        Consume(s, ab, fetch);
        Reconcile(Consume(s, a + init, fetch), last, fetch);
        { ConsumeAppend(s, a, init, fetch); }
        Reconcile(Consume(Consume(s, a, fetch), init, fetch), last, fetch);
        Consume(Consume(s, a, fetch), b, fetch);
      }
    }
  }

  /** Whatever the updates and snapshots, both sides stay sorted and within `Depth` after every step. */
  lemma {:induction false} ConsumeKeepsWellFormed(s: Session, updates: seq<UpdateData>, fetch: nat -> Option<Snapshot>)
    requires WellFormed(s.book)
    ensures WellFormed(Consume(s, updates, fetch).book)
  {
    if updates != [] {
      ConsumeKeepsWellFormed(s, updates[..|updates| - 1], fetch);
    }
  }

  lemma SessionWellFormed(updates: seq<UpdateData>, fetch: nat -> Option<Snapshot>)
    ensures WellFormed(SessionOf(updates, fetch).book)
    ensures fetch(0).None? ==> SessionOf(updates, fetch) == Aborted(Bootstrap, Empty())
  {
    if fetch(0).Some? {
      ConsumeKeepsWellFormed(Running(FromSnapshot(fetch(0).value), 1), updates, fetch);
    }
  }

  /** Updates whose predecessor is older than the book are all ignored: nothing changes, nothing is fetched. */
  lemma {:induction false} StaleUpdatesChangeNothing(book: BookState, k: nat, updates: seq<UpdateData>, fetch: nat -> Option<Snapshot>)
    requires forall i :: 0 <= i < |updates| ==> updates[i].prevTs < book.lastTs
    ensures Consume(Running(book, k), updates, fetch) == Running(book, k)
  {
    if updates != [] {
      StaleUpdatesChangeNothing(book, k, updates[..|updates| - 1], fetch);
    }
  }

  /** Each update's predecessor is the timestamp left by the one before it, the first's is `ts`. */
  predicate Chained(ts: nat, updates: seq<UpdateData>) {
    && (|updates| > 0 ==> updates[0].prevTs == ts)
    && forall i :: 0 < i < |updates| ==> updates[i].prevTs == updates[i - 1].ts
  }

  lemma ChainedPrefix(ts: nat, updates: seq<UpdateData>, n: nat)
    requires Chained(ts, updates) && n <= |updates|
    ensures Chained(ts, updates[..n])
  {
    var p := updates[..n];
    forall i | 0 < i < |p| ensures p[i].prevTs == p[i - 1].ts {
      assert p[i] == updates[i] && p[i - 1] == updates[i - 1];
    }
  }

  /** The updates merged one after another, with no gap checking. */
  function MergeAll(book: BookState, updates: seq<UpdateData>): BookState {
    if updates == [] then book else Merge(MergeAll(book, updates[..|updates| - 1]), updates[|updates| - 1])
  }

  /**
    A chain of updates that starts at the book's timestamp is applied update
    by update, with no snapshot fetched; the book ends at the last update's
    timestamp.
  */
  lemma {:induction false} ChainedUpdatesAllApply(book: BookState, k: nat, updates: seq<UpdateData>, fetch: nat -> Option<Snapshot>)
    requires Chained(book.lastTs, updates)
    ensures Consume(Running(book, k), updates, fetch) == Running(MergeAll(book, updates), k)
    ensures MergeAll(book, updates).lastTs == if updates == [] then book.lastTs else updates[|updates| - 1].ts
  {
    if updates != [] {
      var init := updates[..|updates| - 1];
      ChainedPrefix(book.lastTs, updates, |init|);
      ChainedUpdatesAllApply(book, k, init, fetch);
      if init != [] {
        assert updates[|updates| - 1].prevTs == init[|init| - 1].ts;
      }
    }
  }

  /**
    Exactly one branch is taken: equal timestamps merge the update and take
    its `ts`; a gap replaces the book by the next fetched snapshot (or stops
    if the fetch fails); a stale update leaves the book and the fetch count
    as they were.
  */
  lemma ReconcileCases(book: BookState, k: nat, update: UpdateData, fetch: nat -> Option<Snapshot>)
    ensures var s := Reconcile(Running(book, k), update, fetch);
      && (book.lastTs == update.prevTs ==>
            s == Running(Merge(book, update), k) && s.book.lastTs == update.ts)
      && (book.lastTs < update.prevTs && fetch(k).Some? ==>
            s == Running(FromSnapshot(fetch(k).value), k + 1) && s.book.lastTs == fetch(k).value.timestamp)
      && (book.lastTs < update.prevTs && fetch(k).None? ==> s == Aborted(Resync, book))
      && (book.lastTs > update.prevTs ==> s == Running(book, k))
  {
  }

  /**
    On a gap the update's levels never reach the book: the outcome is the same
    as for an update carrying no levels at all.
  */
  lemma GapDropsUpdate(book: BookState, k: nat, update: UpdateData, fetch: nat -> Option<Snapshot>)
    requires book.lastTs < update.prevTs
    ensures Reconcile(Running(book, k), update, fetch)
         == Reconcile(Running(book, k), UpdateData(update.prevTs, [], [], 0), fetch)
    ensures fetch(k).Some? ==> Reconcile(Running(book, k), update, fetch).book == FromSnapshot(fetch(k).value)
  {
  }
}
