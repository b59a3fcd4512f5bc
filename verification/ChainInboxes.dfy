/**
 * The inboxes of a chain and the queue of unskippable bundles, which is cleaned up lazily: a
 * removed bundle stays in the queue until it reaches the front.
 */
module ChainInboxes {
  import opened Basics
  import opened Inboxes

  /** The sending chain and the medium of its messages. */
  datatype Origin = Origin(sender: nat, medium: nat)

  datatype BundleInInbox = BundleInInbox(origin: Origin, cursor: Cursor)

  datatype Entry = Entry(bundle: BundleInInbox, seen: u64)

  datatype IncomingBundle = IncomingBundle(origin: Origin, bundle: MessageBundle)

  datatype ChainError = IncorrectBundleTimestamp | InInbox(error: InboxError)

  /** The cursors of the bundles in an inbox that are waiting and cannot be skipped. */
  function Unskippable(s: Inbox): set<Cursor> {
    set b | b in s.added && !b.IsSkippable() :: b.Position()
  }

  predicate InboxInOrder(s: Inbox) {
    Increasing(s.added) && forall b | b in s.added :: At(b) < Rank(s.nextCursorToAdd)
  }

  lemma AddAndWaiting(s: Inbox, b: MessageBundle)
    requires InboxInOrder(s) && Add(s, b).Ok?
    ensures var (s', newlyAdded) := Add(s, b).value;
            && InboxInOrder(s')
            && Rank(s.nextCursorToAdd) <= At(b) < Rank(s'.nextCursorToAdd)
            && Unskippable(s') == Unskippable(s) + if newlyAdded && !b.IsSkippable() then {b.Position()} else {}
  {
    RankEmbedsTheOrder(b.Position(), s.nextCursorToAdd);
    assert forall x :: x in s.added + [b] <==> x in s.added || x == b;
  }

  lemma {:induction false} SkippingKeepsWaiting(queue: seq<MessageBundle>, cursor: Cursor)
    requires Increasing(queue) && SkipBelow(queue, cursor).Some?
    ensures var rest := SkipBelow(queue, cursor).value;
            && Increasing(rest)
            && (forall b | b in rest :: b in queue)
            && (forall b | b in queue && !b.IsSkippable() :: b in rest)
  {
    if queue != [] && queue[0].Position().Below(cursor) {
      SkippingKeepsWaiting(queue[1..], cursor);
    }
  }

  /** Dropping the front of a queue in order. */
  lemma DroppingFront(queue: seq<MessageBundle>, b: MessageBundle)
    requires Increasing(queue) && queue != [] && queue[0] == b
    ensures Increasing(queue[1..])
    ensures forall x :: x in queue <==> x == b || x in queue[1..]
    ensures forall x | x in queue[1..] :: x.Position() != b.Position()
  {
    forall x | x in queue[1..] ensures x.Position() != b.Position() {
      var i :| 0 < i < |queue| && queue[i] == x;
    }
  }

  lemma RemoveAndWaiting(s: Inbox, b: MessageBundle)
    requires InboxInOrder(s) && Remove(s, b).Ok?
    ensures var (s', known) := Remove(s, b).value;
            && InboxInOrder(s')
            && s'.nextCursorToAdd == s.nextCursorToAdd
            && (known && !b.IsSkippable() ==> b.Position() in Unskippable(s))
            && Unskippable(s') == Unskippable(s) - if known && !b.IsSkippable() then {b.Position()} else {}
  {
    SkippingKeepsWaiting(s.added, b.Position());
    var rest := SkipBelow(s.added, b.Position()).value;
    var s1 := s.(added := rest);
    assert Unskippable(s1) == Unskippable(s);
    if rest != [] {
      DroppingFront(rest, b);
    }
  }

  function InboxOf(inboxes: map<Origin, Inbox>, o: Origin): Inbox {
    if o in inboxes then inboxes[o] else EMPTY_INBOX
  }

  /** The bundles of a block from one origin, in the order of the block. */
  function BundlesFrom(block: seq<IncomingBundle>, o: Origin): seq<MessageBundle> {
    if block == [] then []
    else
      BundlesFrom(block[..|block| - 1], o)
      + if block[|block| - 1].origin == o then [block[|block| - 1].bundle] else []
  }

  /** Removes several bundles in order; `None` if one of them cannot be removed. */
  function RemoveAll(s: Inbox, bundles: seq<MessageBundle>): Option<Inbox> {
    if bundles == [] then Some(s)
    else
      var before := RemoveAll(s, bundles[..|bundles| - 1]);
      if before.None? then None
      else
        var r := Remove(before.value, bundles[|bundles| - 1]);
        if r.Ok? then Some(r.value.0) else None
  }

  /** The inboxes after the removals of a block, one bundle after the other; `None` if one of them fails. */
  function RemovedInOrder(inboxes: map<Origin, Inbox>, block: seq<IncomingBundle>): Option<map<Origin, Inbox>> {
    if block == [] then Some(inboxes)
    else
      var before := RemovedInOrder(inboxes, block[..|block| - 1]);
      var IncomingBundle(o, b) := block[|block| - 1];
      if before.None? then None
      else
        var r := Remove(InboxOf(before.value, o), b);
        if r.Ok? then Some(before.value[o := r.value.0]) else None
  }

  /** One more removal, if those before it succeeded. */
  function ThenRemove(s: Option<Inbox>, b: MessageBundle): Option<Inbox> {
    if s.None? then None
    else
      var r := Remove(s.value, b);
      if r.Ok? then Some(r.value.0) else None
  }

  /** The inbox of one origin after its bundles in a block. */
  function InboxAfter(inboxes: map<Origin, Inbox>, block: seq<IncomingBundle>, o: Origin): Option<Inbox> {
    RemoveAll(InboxOf(inboxes, o), BundlesFrom(block, o))
  }

  lemma InboxAfterStep(inboxes: map<Origin, Inbox>, block: seq<IncomingBundle>, o: Origin)
    requires block != []
    ensures var before, last := block[..|block| - 1], block[|block| - 1];
            InboxAfter(inboxes, block, o) ==
            if last.origin == o then ThenRemove(InboxAfter(inboxes, before, o), last.bundle)
            else InboxAfter(inboxes, before, o)
  {
    var before, last := block[..|block| - 1], block[|block| - 1];
    if last.origin == o {
      assert BundlesFrom(block, o)[..|BundlesFrom(before, o)|] == BundlesFrom(before, o);
    } else {
      assert BundlesFrom(before, o) + [] == BundlesFrom(before, o);
    }
  }

  /** The inboxes of all origins are as they are after removing in the order of the block. */
  ghost predicate SameInboxes(inboxes: map<Origin, Inbox>, block: seq<IncomingBundle>) {
    var r := RemovedInOrder(inboxes, block);
    if r.Some? then forall o :: InboxAfter(inboxes, block, o) == Some(InboxOf(r.value, o))
    else exists o :: InboxAfter(inboxes, block, o).None?
  }

  lemma SameInboxesStep(inboxes: map<Origin, Inbox>, block: seq<IncomingBundle>)
    requires block != [] && SameInboxes(inboxes, block[..|block| - 1])
    ensures SameInboxes(inboxes, block)
  {
    var before, last := block[..|block| - 1], block[|block| - 1];
    var r, r' := RemovedInOrder(inboxes, before), RemovedInOrder(inboxes, block);
    InboxAfterStep(inboxes, block, last.origin);
    if r.None? {
      var o :| InboxAfter(inboxes, before, o).None?;
      InboxAfterStep(inboxes, block, o);
    } else if r'.Some? {
      forall o ensures InboxAfter(inboxes, block, o) == Some(InboxOf(r'.value, o)) {
        InboxAfterStep(inboxes, block, o);
        assert InboxAfter(inboxes, before, o) == Some(InboxOf(r.value, o));
      }
    } else {
      assert InboxAfter(inboxes, block, last.origin).None?;
    }
  }

  /** Removing the bundles of each origin together is removing all bundles in the order of the block. */
  lemma {:induction false} GroupingIsIrrelevant(inboxes: map<Origin, Inbox>, block: seq<IncomingBundle>)
    ensures SameInboxes(inboxes, block)
  {
    if block != [] {
      GroupingIsIrrelevant(inboxes, block[..|block| - 1]);
      SameInboxesStep(inboxes, block);
    }
  }

  /** A bundle that was removed was waiting in the inbox, or is kept as removed ahead of time. */
  predicate IsAccountedFor(before: map<Origin, Inbox>, after: map<Origin, Inbox>, b: IncomingBundle) {
    b.bundle in InboxOf(before, b.origin).added || b.bundle in InboxOf(after, b.origin).removed
  }

  lemma {:induction false} SkippingTakesNothingNew(queue: seq<MessageBundle>, cursor: Cursor)
    requires SkipBelow(queue, cursor).Some?
    ensures forall b | b in SkipBelow(queue, cursor).value :: b in queue
  {
    if queue != [] && queue[0].Position().Below(cursor) && queue[0].IsSkippable() {
      SkippingTakesNothingNew(queue[1..], cursor);
    }
  }

  lemma RemovalIsAccountedFor(s: Inbox, b: MessageBundle)
    requires Remove(s, b).Ok?
    ensures var s' := Remove(s, b).value.0;
            && (b in s.added || b in s'.removed)
            && (forall x | x in s'.added :: x in s.added) && (forall x | x in s.removed :: x in s'.removed)
  {
    SkippingTakesNothingNew(s.added, b.Position());
  }

  /** Every bundle of a block is accounted for. */
  lemma {:induction false} RemovalsAreAccountedFor(inboxes: map<Origin, Inbox>, block: seq<IncomingBundle>)
    requires RemovedInOrder(inboxes, block).Some?
    ensures var inboxes' := RemovedInOrder(inboxes, block).value;
            && (forall b | b in block :: IsAccountedFor(inboxes, inboxes', b))
            && (forall o, x | x in InboxOf(inboxes', o).added :: x in InboxOf(inboxes, o).added)
  {
    if block != [] {
      var before, last := block[..|block| - 1], block[|block| - 1];
      RemovalsAreAccountedFor(inboxes, before);
      var m, m' := RemovedInOrder(inboxes, before).value, RemovedInOrder(inboxes, block).value;
      RemovalIsAccountedFor(InboxOf(m, last.origin), last.bundle);
      assert forall o | o != last.origin :: InboxOf(m', o) == InboxOf(m, o);
      forall b | b in block ensures IsAccountedFor(inboxes, m', b) {
        assert b in before || b == last;
        assert b in before ==> IsAccountedFor(inboxes, m, b);
      }
    }
  }

  /** The unskippable bundles waiting in all inboxes. */
  function Waiting(inboxes: map<Origin, Inbox>): set<BundleInInbox> {
    set o, c | o in inboxes && c in Unskippable(inboxes[o]) :: BundleInInbox(o, c)
  }

  function Bundles(entries: seq<Entry>): set<BundleInInbox> {
    set e | e in entries :: e.bundle
  }

  predicate Distinct(arrivals: seq<Entry>) {
    forall i, j | 0 <= i < j < |arrivals| :: arrivals[i].bundle != arrivals[j].bundle
  }

  /** Bundles that arrived are below the cursor of their inbox. */
  predicate Arrived(inboxes: map<Origin, Inbox>, arrivals: seq<Entry>) {
    forall e | e in arrivals ::
      Rank(e.bundle.cursor) < Rank(InboxOf(inboxes, e.bundle.origin).nextCursorToAdd)
  }

  /** The queue is a suffix of the arrivals; together with the removed set it tells who waits. */
  predicate Indexes(waiting: set<BundleInInbox>, arrivals: seq<Entry>, queue: seq<Entry>, removed: set<BundleInInbox>) {
    && |queue| <= |arrivals|
    && var k := |arrivals| - |queue|;
       && queue == arrivals[k..]
       && (forall i | 0 <= i < k :: arrivals[i].bundle !in waiting)
       && (forall i | k <= i < |arrivals| :: arrivals[i].bundle in waiting <==> arrivals[i].bundle !in removed)
  }

  /** The relation between the inboxes, everything that arrived, the queue and the removed set. */
  predicate Consistent(inboxes: map<Origin, Inbox>, arrivals: seq<Entry>, queue: seq<Entry>,
                       removed: set<BundleInInbox>) {
    && (forall o | o in inboxes :: InboxInOrder(inboxes[o]))
    && Distinct(arrivals) && Arrived(inboxes, arrivals)
    && Waiting(inboxes) <= Bundles(arrivals)
    && removed <= Bundles(queue)
    && Indexes(Waiting(inboxes), arrivals, queue, removed)
    && (queue != [] ==> queue[0].bundle !in removed)
  }

  /** Who waits: the bundles in an inbox that must be executed. */
  lemma WaitingExactly(inboxes: map<Origin, Inbox>, x: BundleInInbox)
    ensures x in Waiting(inboxes) <==>
              && x.origin in inboxes
              && exists b | b in inboxes[x.origin].added ::
                   b.height == x.cursor.height && b.transactionIndex == x.cursor.index && MustBeExecuted(b)
  {
    if x.origin in inboxes {
      forall b | b in inboxes[x.origin].added ensures b.IsSkippable() <==> !MustBeExecuted(b) {
        SkippableExactly(b);
      }
    }
  }

  lemma WaitingAfterAdd(inboxes: map<Origin, Inbox>, o: Origin, s: Inbox, more: set<Cursor>)
    requires Unskippable(s) == Unskippable(InboxOf(inboxes, o)) + more
    ensures Waiting(inboxes[o := s]) == Waiting(inboxes) + set c | c in more :: BundleInInbox(o, c)
  {}

  lemma WaitingAfterRemove(inboxes: map<Origin, Inbox>, o: Origin, s: Inbox, gone: set<Cursor>)
    requires Unskippable(s) == Unskippable(InboxOf(inboxes, o)) - gone
    ensures Waiting(inboxes[o := s]) == Waiting(inboxes) - set c | c in gone :: BundleInInbox(o, c)
  {}

  class ChainState {
    var inboxes: map<Origin, Inbox>
    var unskippableBundles: seq<Entry>
    var removedUnskippableBundles: set<BundleInInbox>
    /** The certificates received so far, as far as they are logged. */
    var receivedLog: seq<(nat, u64)>
    /** All bundles that ever entered the queue, in the order of their arrival. */
    ghost var arrivals: seq<Entry>

    ghost predicate Valid()
      reads this
    {
      Consistent(inboxes, arrivals, unskippableBundles, removedUnskippableBundles)
    }

    constructor ()
      ensures Valid() && inboxes == map[] && arrivals == [] && receivedLog == []
    {
      receivedLog := [];
      inboxes := map[];
      unskippableBundles := [];
      removedUnskippableBundles := {};
      arrivals := [];
    }

    /** Adds a received bundle to the inbox of its origin, unless it holds subscriptions only. */
    method ReceiveBundle(origin: Origin, bundle: MessageBundle, localTime: u64, addToReceivedLog: bool)
      returns (r: Result<(), ChainError>)
      requires Valid() && bundle.messages != []
      modifies this
      ensures var result := Add(InboxOf(old(inboxes), origin), bundle);
              && (r.Ok? <==> !bundle.GoesToInbox() || result.Ok?)
              && (r.Ok? ==>
                    && Valid()
                    && receivedLog ==
                       old(receivedLog) + if addToReceivedLog then [(origin.sender, bundle.height)] else [])
              && (r.Ok? && bundle.GoesToInbox() ==>
                    && inboxes == old(inboxes)[origin := result.value.0]
                    && arrivals == old(arrivals) + NewArrival(origin, bundle, result.value.1, localTime))
      ensures !bundle.GoesToInbox() ==>
                && inboxes == old(inboxes) && arrivals == old(arrivals) && unskippableBundles == old(unskippableBundles)
                && removedUnskippableBundles == old(removedUnskippableBundles)
      ensures r.Ok? && bundle.GoesToInbox() ==>
                && InboxOf(inboxes, origin).nextCursorToAdd == Cursor(bundle.height, bundle.transactionIndex + 1)
                && unskippableBundles == old(unskippableBundles) +
                     if MustBeExecuted(bundle) && bundle in InboxOf(inboxes, origin).added
                     then [Entry(BundleInInbox(origin, Cursor(bundle.height, bundle.transactionIndex)), localTime)]
                     else []
    {
      if bundle.GoesToInbox() {
        var inbox := InboxOf(inboxes, origin);
        var result := Add(inbox, bundle);
        if result.Err? {
          return Err(InInbox(result.error));
        }
        ReceivingKeepsConsistent(inboxes, arrivals, unskippableBundles, removedUnskippableBundles, origin, bundle,
            localTime);
        ArrivalExactly(inbox, origin, bundle, localTime);
        var more := NewArrival(origin, bundle, result.value.1, localTime);
        inboxes, unskippableBundles, arrivals :=
          inboxes[origin := result.value.0], unskippableBundles + more, arrivals + more;
      }
      if addToReceivedLog {
        receivedLog := receivedLog + [(origin.sender, bundle.height)];
      }
      return Ok(());
    }

    /** Removes the incoming bundles of a block from the inboxes. */
    method RemoveBundlesFromInboxes(block: seq<IncomingBundle>, blockTimestamp: u64) returns (r: Result<(), ChainError>)
      requires Valid()
      modifies this
      ensures r.Ok? <==>
                && (forall b | b in block :: b.bundle.timestamp <= blockTimestamp)
                && RemovedInOrder(old(inboxes), block).Some?
      ensures r.Ok? ==>
                && Valid() && arrivals == old(arrivals) && receivedLog == old(receivedLog)
                && (forall o :: InboxOf(inboxes, o) == InboxOf(RemovedInOrder(old(inboxes), block).value, o))
                && (forall b | b in block :: IsAccountedFor(old(inboxes), inboxes, b))
    {
      if exists b | b in block :: b.bundle.timestamp > blockTimestamp {
        return Err(IncorrectBundleTimestamp);
      }
      var result := RemoveFromInboxes(inboxes, block);
      if result.Err? {
        return Err(InInbox(result.error));
      }
      var gone := result.value.1;
      ghost var waiting := Waiting(result.value.0);
      RemovalLeavesIndex(inboxes, result.value.0, arrivals, unskippableBundles, removedUnskippableBundles, gone);
      inboxes := result.value.0;
      unskippableBundles, removedUnskippableBundles :=
        DeleteRemoved(unskippableBundles, removedUnskippableBundles, gone, waiting, arrivals);
      return Ok(());
    }
  }

  /** Deletes removed bundles from the front of the queue and remembers the others. */
  method DeleteRemoved(queue: seq<Entry>, removed: set<BundleInInbox>, removedNow: set<BundleInInbox>,
                       ghost waiting: set<BundleInInbox>, ghost arrivals: seq<Entry>)
    returns (queue': seq<Entry>, removed': set<BundleInInbox>)
    requires Distinct(arrivals) && Pending(waiting, arrivals, queue, removed + removedNow)
    requires removed !! removedNow
    requires queue != [] ==> queue[0].bundle !in removed
    ensures Pending(waiting, arrivals, queue', removed')
    ensures queue' != [] ==> queue'[0].bundle !in removed'
  {
    queue', removed' := queue, removed;
    var rest := removedNow;
    if queue' != [] && queue'[0].bundle in rest {
      while queue' != []
        invariant removed' !! rest
        invariant Pending(waiting, arrivals, queue', removed' + rest)
        decreases |queue'|
      {
        var front := queue'[0].bundle;
        ghost var all := removed' + rest;
        if front in all {
          DropFront(waiting, arrivals, queue', all);
        }
        if front in rest {
          rest := rest - {front};
        } else {
          if front !in removed' {
            break;
          }
          removed' := removed' - {front};
        }
        assert removed' + rest == all - {front};
        queue' := queue'[1..];
      }
    }
    removed' := removed' + rest;
  }

  /** The index, before the removed bundles at the front of the queue are deleted. */
  predicate Pending(waiting: set<BundleInInbox>, arrivals: seq<Entry>, queue: seq<Entry>, removed: set<BundleInInbox>) {
    removed <= Bundles(queue) && Indexes(waiting, arrivals, queue, removed)
  }

  lemma DropFront(waiting: set<BundleInInbox>, arrivals: seq<Entry>, queue: seq<Entry>, removed: set<BundleInInbox>)
    requires Distinct(arrivals) && Pending(waiting, arrivals, queue, removed)
    requires queue != [] && queue[0].bundle in removed
    ensures Pending(waiting, arrivals, queue[1..], removed - {queue[0].bundle})
  {
    var k := |arrivals| - |queue|;
    assert arrivals[k] == queue[0] && queue[1..] == arrivals[k + 1..];
    BundlesOfConcatenation([queue[0]], queue[1..]);
    assert [queue[0]] + queue[1..] == queue;
    forall i | k + 1 <= i < |arrivals| ensures arrivals[i].bundle != queue[0].bundle {
      assert arrivals[k].bundle != arrivals[i].bundle;
    }
  }

  predicate Processed(s: Inbox, s': Inbox, bundles: seq<MessageBundle>, done: bool) {
    && InboxInOrder(s') && s'.nextCursorToAdd == s.nextCursorToAdd
    && if done then RemoveAll(s, bundles) == Some(s') else s' == s
  }

  /** The removals of the block are done for all origins except the pending ones. */
  ghost predicate AllProcessed(inboxes: map<Origin, Inbox>, inboxes': map<Origin, Inbox>, block: seq<IncomingBundle>,
                               pending: set<Origin>)
  {
    forall o :: Processed(InboxOf(inboxes, o), InboxOf(inboxes', o), BundlesFrom(block, o), o !in pending)
  }

  predicate AreGone(inboxes: map<Origin, Inbox>, inboxes': map<Origin, Inbox>, gone: set<BundleInInbox>) {
    gone <= Waiting(inboxes) && Waiting(inboxes') == Waiting(inboxes) - gone
  }

  lemma NothingProcessed(inboxes: map<Origin, Inbox>, block: seq<IncomingBundle>)
    requires forall o | o in inboxes :: InboxInOrder(inboxes[o])
    ensures AllProcessed(inboxes, inboxes, block, set b | b in block :: b.origin)
  {
    var pending := set b | b in block :: b.origin;
    forall o ensures Processed(InboxOf(inboxes, o), InboxOf(inboxes, o), BundlesFrom(block, o), o !in pending) {
      if o !in pending {
        NoBundlesFromOthers(block, o);
      }
    }
  }

  /** The removals from one more inbox. */
  lemma OneMoreProcessed(inboxes: map<Origin, Inbox>, inboxes': map<Origin, Inbox>, block: seq<IncomingBundle>,
                         pending: set<Origin>, o: Origin, s': Inbox)
    requires AllProcessed(inboxes, inboxes', block, pending) && o in pending
    requires Processed(InboxOf(inboxes, o), s', BundlesFrom(block, o), true)
    ensures AllProcessed(inboxes, inboxes'[o := s'], block, pending - {o})
  {
    var after := inboxes'[o := s'];
    forall q ensures Processed(InboxOf(inboxes, q), InboxOf(after, q), BundlesFrom(block, q), q !in pending - {o}) {
      if q != o {
        assert InboxOf(after, q) == InboxOf(inboxes', q);
      }
    }
  }

  lemma OneMoreGone(inboxes: map<Origin, Inbox>, inboxes': map<Origin, Inbox>, gone: set<BundleInInbox>, o: Origin,
                    s': Inbox, cursors: set<Cursor>)
    requires AreGone(inboxes, inboxes', gone) && cursors <= Unskippable(InboxOf(inboxes', o))
    requires Unskippable(s') == Unskippable(InboxOf(inboxes', o)) - cursors
    ensures AreGone(inboxes, inboxes'[o := s'], gone + set c | c in cursors :: BundleInInbox(o, c))
  {
    WaitingAfterRemove(inboxes', o, s', cursors);
    forall c | c in cursors ensures BundleInInbox(o, c) in Waiting(inboxes') {
      assert o in inboxes' && c in Unskippable(inboxes'[o]);
    }
  }

  /** The inboxes without the bundles of a block, and the unskippable ones that were waiting. */
  method RemoveFromInboxes(inboxes: map<Origin, Inbox>, block: seq<IncomingBundle>)
    returns (r: Result<(map<Origin, Inbox>, set<BundleInInbox>), InboxError>)
    requires forall o | o in inboxes :: InboxInOrder(inboxes[o])
    ensures r.Ok? <==> forall o :: RemoveAll(InboxOf(inboxes, o), BundlesFrom(block, o)).Some?
    ensures r.Ok? <==> RemovedInOrder(inboxes, block).Some?
    ensures r.Ok? ==>
              && (forall o :: InboxOf(r.value.0, o) == InboxOf(RemovedInOrder(inboxes, block).value, o))
              && (forall b | b in block :: IsAccountedFor(inboxes, r.value.0, b))
    ensures r.Ok? ==>
              && var (inboxes', gone) := r.value;
              && (forall o :: InboxOf(inboxes', o) == RemoveAll(InboxOf(inboxes, o), BundlesFrom(block, o)).value)
              && (forall o :: InboxInOrder(InboxOf(inboxes', o))
                              && InboxOf(inboxes', o).nextCursorToAdd == InboxOf(inboxes, o).nextCursorToAdd)
              && gone <= Waiting(inboxes) && Waiting(inboxes') == Waiting(inboxes) - gone
  {
    var inboxes' := inboxes;
    var gone: set<BundleInInbox> := {};
    var pending := set b | b in block :: b.origin;
    NothingProcessed(inboxes, block);
    while pending != {}
      invariant AllProcessed(inboxes, inboxes', block, pending)
      invariant AreGone(inboxes, inboxes', gone)
    {
      var o :| o in pending;
      assert Processed(InboxOf(inboxes, o), InboxOf(inboxes', o), BundlesFrom(block, o), false);
      var result := RemoveFromInbox(InboxOf(inboxes', o), BundlesFrom(block, o));
      if result.Err? {
        FailedRemoval(inboxes, block, o);
        return Err(result.error);
      }
      var (s', cursors) := result.value;
      OneMoreProcessed(inboxes, inboxes', block, pending, o, s');
      OneMoreGone(inboxes, inboxes', gone, o, s', cursors);
      inboxes' := inboxes'[o := s'];
      gone := gone + set c | c in cursors :: BundleInInbox(o, c);
      pending := pending - {o};
    }
    AllDone(inboxes, inboxes', block);
    DoneInOrder(inboxes, inboxes', block);
    return Ok((inboxes', gone));
  }

  lemma FailedRemoval(inboxes: map<Origin, Inbox>, block: seq<IncomingBundle>, o: Origin)
    requires RemoveAll(InboxOf(inboxes, o), BundlesFrom(block, o)).None?
    ensures RemovedInOrder(inboxes, block).None?
  {
    GroupingIsIrrelevant(inboxes, block);
    assert InboxAfter(inboxes, block, o).None?;
  }

  lemma DoneInOrder(inboxes: map<Origin, Inbox>, inboxes': map<Origin, Inbox>, block: seq<IncomingBundle>)
    requires forall o :: RemoveAll(InboxOf(inboxes, o), BundlesFrom(block, o)) == Some(InboxOf(inboxes', o))
    ensures RemovedInOrder(inboxes, block).Some?
    ensures forall o :: InboxOf(inboxes', o) == InboxOf(RemovedInOrder(inboxes, block).value, o)
    ensures forall b | b in block :: IsAccountedFor(inboxes, inboxes', b)
  {
    GroupingIsIrrelevant(inboxes, block);
    forall o ensures InboxAfter(inboxes, block, o) == Some(InboxOf(inboxes', o)) {}
    var m := RemovedInOrder(inboxes, block).value;
    forall o ensures InboxOf(inboxes', o) == InboxOf(m, o) {
      assert InboxAfter(inboxes, block, o) == Some(InboxOf(m, o));
    }
    RemovalsAreAccountedFor(inboxes, block);
    forall b | b in block ensures IsAccountedFor(inboxes, inboxes', b) {
      assert IsAccountedFor(inboxes, m, b) && InboxOf(inboxes', b.origin) == InboxOf(m, b.origin);
    }
  }

  lemma AllDone(inboxes: map<Origin, Inbox>, inboxes': map<Origin, Inbox>, block: seq<IncomingBundle>)
    requires AllProcessed(inboxes, inboxes', block, {})
    ensures forall o :: RemoveAll(InboxOf(inboxes, o), BundlesFrom(block, o)) == Some(InboxOf(inboxes', o))
    ensures forall o :: InboxInOrder(InboxOf(inboxes', o))
                        && InboxOf(inboxes', o).nextCursorToAdd == InboxOf(inboxes, o).nextCursorToAdd
  {
    forall o ensures && RemoveAll(InboxOf(inboxes, o), BundlesFrom(block, o)) == Some(InboxOf(inboxes', o))
                     && InboxInOrder(InboxOf(inboxes', o))
                     && InboxOf(inboxes', o).nextCursorToAdd == InboxOf(inboxes, o).nextCursorToAdd {
      assert Processed(InboxOf(inboxes, o), InboxOf(inboxes', o), BundlesFrom(block, o), o !in {});
    }
  }

  lemma {:induction false} NoBundlesFromOthers(block: seq<IncomingBundle>, o: Origin)
    requires o !in set b | b in block :: b.origin
    ensures BundlesFrom(block, o) == []
  {
    if block != [] {
      var last := block[|block| - 1];
      assert last in block && forall b | b in block[..|block| - 1] :: b in block;
      NoBundlesFromOthers(block[..|block| - 1], o);
    }
  }

  method RemoveFromInbox(s: Inbox, bundles: seq<MessageBundle>) returns (r: Result<(Inbox, set<Cursor>), InboxError>)
    requires InboxInOrder(s)
    ensures r.Ok? <==> RemoveAll(s, bundles).Some?
    ensures r.Ok? ==>
              && var (s', gone) := r.value;
              && s' == RemoveAll(s, bundles).value
              && InboxInOrder(s') && s'.nextCursorToAdd == s.nextCursorToAdd
              && gone <= Unskippable(s) && Unskippable(s') == Unskippable(s) - gone
  {
    var s' := s;
    var gone: set<Cursor> := {};
    for i := 0 to |bundles|
      invariant RemoveAll(s, bundles[..i]) == Some(s')
      invariant InboxInOrder(s') && s'.nextCursorToAdd == s.nextCursorToAdd
      invariant gone <= Unskippable(s) && Unskippable(s') == Unskippable(s) - gone
    {
      var result := Remove(s', bundles[i]);
      assert bundles[..i + 1][..i] == bundles[..i];
      if result.Err? {
        FailedPrefix(s, bundles, i + 1);
        return Err(result.error);
      }
      RemoveAndWaiting(s', bundles[i]);
      if result.value.1 && !bundles[i].IsSkippable() {
        gone := gone + {bundles[i].Position()};
      }
      s' := result.value.0;
    }
    assert bundles[..|bundles|] == bundles;
    return Ok((s', gone));
  }

  lemma {:induction false} FailedPrefix(s: Inbox, bundles: seq<MessageBundle>, n: nat)
    requires n <= |bundles| && RemoveAll(s, bundles[..n]).None?
    ensures RemoveAll(s, bundles).None?
    decreases |bundles| - n
  {
    if n == |bundles| {
      assert bundles[..n] == bundles;
    } else {
      assert bundles[..n + 1][..n] == bundles[..n];
      FailedPrefix(s, bundles, n + 1);
    }
  }

  lemma RemovalLeavesIndex(inboxes: map<Origin, Inbox>, inboxes': map<Origin, Inbox>, arrivals: seq<Entry>,
                           queue: seq<Entry>, removed: set<BundleInInbox>, gone: set<BundleInInbox>)
    requires Consistent(inboxes, arrivals, queue, removed)
    requires forall o :: InboxInOrder(InboxOf(inboxes', o))
                         && InboxOf(inboxes', o).nextCursorToAdd == InboxOf(inboxes, o).nextCursorToAdd
    requires gone <= Waiting(inboxes) && Waiting(inboxes') == Waiting(inboxes) - gone
    ensures forall o | o in inboxes' :: InboxInOrder(inboxes'[o])
    ensures Arrived(inboxes', arrivals) && removed !! gone
    ensures Pending(Waiting(inboxes'), arrivals, queue, removed + gone)
  {
    var k := |arrivals| - |queue|;
    forall o | o in inboxes' ensures InboxInOrder(inboxes'[o]) {
      assert InboxOf(inboxes', o) == inboxes'[o];
    }
    forall x | x in Waiting(inboxes) ensures x in Bundles(queue) && x !in removed {
      var e :| e in arrivals && e.bundle == x;
      var i :| 0 <= i < |arrivals| && arrivals[i] == e;
      assert i >= k && queue[i - k] == e;
    }
  }

  /** The queue entry for an added bundle, if it needs one. */
  function NewArrival(o: Origin, b: MessageBundle, newlyAdded: bool, localTime: u64): seq<Entry> {
    if newlyAdded && !b.IsSkippable() then [Entry(BundleInInbox(o, b.Position()), localTime)] else []
  }

  lemma ReceivingKeepsConsistent(inboxes: map<Origin, Inbox>, arrivals: seq<Entry>, queue: seq<Entry>,
                                 removed: set<BundleInInbox>, o: Origin, b: MessageBundle, localTime: u64)
    requires Consistent(inboxes, arrivals, queue, removed)
    requires Add(InboxOf(inboxes, o), b).Ok?
    ensures var (s, newlyAdded) := Add(InboxOf(inboxes, o), b).value;
            var more := NewArrival(o, b, newlyAdded, localTime);
            Consistent(inboxes[o := s], arrivals + more, queue + more, removed)
  {
    var (s, newlyAdded) := Add(InboxOf(inboxes, o), b).value;
    var more := NewArrival(o, b, newlyAdded, localTime);
    AddAndWaiting(InboxOf(inboxes, o), b);
    ArrivalCursors(o, b, newlyAdded, localTime);
    ArrivalKeepsIndex(inboxes, arrivals, queue, removed, o, s, more);
    if queue == [] && more != [] {
      assert removed == {};
    }
  }

  /** Exactly the bundles that hold anything but subscriptions go to the inbox. */
  lemma GoesToInboxExactly(b: MessageBundle)
    ensures b.GoesToInbox() <==> exists m | m in b.messages ::
              !(m.message.SystemMessage? && m.message.kind in {Subscribe, Unsubscribe})
  {}

  /** An added bundle is queued, with the time at which it was seen, exactly if it is new and must be executed. */
  lemma ArrivalExactly(s: Inbox, o: Origin, b: MessageBundle, localTime: u64)
    requires InboxInOrder(s) && Add(s, b).Ok?
    ensures var (s', newlyAdded) := Add(s, b).value;
            && b.transactionIndex < U32_MAX && s'.nextCursorToAdd == Cursor(b.height, b.transactionIndex + 1)
            && NewArrival(o, b, newlyAdded, localTime) ==
               if MustBeExecuted(b) && b in s'.added
               then [Entry(BundleInInbox(o, Cursor(b.height, b.transactionIndex)), localTime)] else []
  {
    SkippableExactly(b);
    RankEmbedsTheOrder(b.Position(), s.nextCursorToAdd);
    assert b !in s.added;
  }

  lemma ArrivalCursors(o: Origin, b: MessageBundle, newlyAdded: bool, localTime: u64)
    ensures var more := NewArrival(o, b, newlyAdded, localTime);
            && (set e | e in more :: e.bundle.cursor) == (if more == [] then {} else {b.Position()})
            && forall e | e in more :: e.bundle.origin == o && e.bundle.cursor == b.Position()
  {
    var more := NewArrival(o, b, newlyAdded, localTime);
    if more != [] {
      assert more[0] in more;
    }
  }

  lemma ArrivalKeepsIndex(inboxes: map<Origin, Inbox>, arrivals: seq<Entry>, queue: seq<Entry>,
                          removed: set<BundleInInbox>, o: Origin, s: Inbox, more: seq<Entry>)
    requires Distinct(arrivals) && Arrived(inboxes, arrivals) && Waiting(inboxes) <= Bundles(arrivals)
    requires removed <= Bundles(queue) && Indexes(Waiting(inboxes), arrivals, queue, removed)
    requires |more| <= 1
    requires Rank(InboxOf(inboxes, o).nextCursorToAdd) <= Rank(s.nextCursorToAdd)
    requires forall e | e in more :: e.bundle.origin == o &&
               Rank(InboxOf(inboxes, o).nextCursorToAdd) <= Rank(e.bundle.cursor) < Rank(s.nextCursorToAdd)
    requires Unskippable(s) == Unskippable(InboxOf(inboxes, o)) + set e | e in more :: e.bundle.cursor
    ensures Distinct(arrivals + more) && Arrived(inboxes[o := s], arrivals + more)
    ensures Waiting(inboxes[o := s]) <= Bundles(arrivals + more)
    ensures removed <= Bundles(queue + more)
    ensures Indexes(Waiting(inboxes[o := s]), arrivals + more, queue + more, removed)
  {
    var cursors := set e | e in more :: e.bundle.cursor;
    WaitingAfterAdd(inboxes, o, s, cursors);
    assert Bundles(more) == set c | c in cursors :: BundleInInbox(o, c);
    BundlesOfConcatenation(arrivals, more);
    BundlesOfConcatenation(queue, more);
    NewcomersAreNew(inboxes, arrivals, o, more);
    SuffixGrows(Waiting(inboxes), arrivals, queue, removed, more);
  }

  lemma BundlesOfConcatenation(a: seq<Entry>, b: seq<Entry>)
    ensures Bundles(a + b) == Bundles(a) + Bundles(b)
  {
    assert forall e :: e in a + b <==> e in a || e in b;
  }

  lemma NewcomersAreNew(inboxes: map<Origin, Inbox>, arrivals: seq<Entry>, o: Origin, more: seq<Entry>)
    requires Arrived(inboxes, arrivals)
    requires forall e | e in more ::
      e.bundle.origin == o && Rank(InboxOf(inboxes, o).nextCursorToAdd) <= Rank(e.bundle.cursor)
    ensures Bundles(arrivals) !! Bundles(more)
  {}

  lemma SuffixGrows(waiting: set<BundleInInbox>, arrivals: seq<Entry>, queue: seq<Entry>, removed: set<BundleInInbox>,
                    more: seq<Entry>)
    requires Indexes(waiting, arrivals, queue, removed) && removed <= Bundles(queue)
    requires Bundles(arrivals) !! Bundles(more)
    ensures Indexes(waiting + Bundles(more), arrivals + more, queue + more, removed)
  {
    var all, k := arrivals + more, |arrivals| - |queue|;
    assert queue + more == all[k..];
    assert Bundles(queue) <= Bundles(arrivals);
    forall i | 0 <= i < |arrivals| ensures all[i] == arrivals[i] && arrivals[i].bundle !in Bundles(more) {
      assert arrivals[i].bundle in Bundles(arrivals);
    }
    forall i | |arrivals| <= i < |all| ensures all[i].bundle in Bundles(more) && all[i].bundle !in removed {
      assert all[i] == more[i - |arrivals|];
    }
  }

  // ----- What the queue tells -----

  function Only(entries: seq<Entry>, bundles: set<BundleInInbox>): seq<Entry> {
    if entries == [] then []
    else (if entries[0].bundle in bundles then [entries[0]] else []) + Only(entries[1..], bundles)
  }

  function Except(entries: seq<Entry>, bundles: set<BundleInInbox>): seq<Entry> {
    if entries == [] then []
    else (if entries[0].bundle in bundles then [] else [entries[0]]) + Except(entries[1..], bundles)
  }

  lemma {:induction false} OnlyIsExcept(entries: seq<Entry>, waiting: set<BundleInInbox>, removed: set<BundleInInbox>)
    requires forall i | 0 <= i < |entries| :: entries[i].bundle in waiting <==> entries[i].bundle !in removed
    ensures Only(entries, waiting) == Except(entries, removed)
  {
    if entries != [] {
      OnlyIsExcept(entries[1..], waiting, removed);
    }
  }

  lemma {:induction false} OnlySkipsPrefix(entries: seq<Entry>, k: nat, waiting: set<BundleInInbox>)
    requires k <= |entries|
    requires forall i | 0 <= i < k :: entries[i].bundle !in waiting
    ensures Only(entries, waiting) == Only(entries[k..], waiting)
  {
    if k > 0 {
      OnlySkipsPrefix(entries[1..], k - 1, waiting);
      assert entries[1..][k - 1..] == entries[k..];
    }
  }

  lemma {:induction false} OnlyMembers(entries: seq<Entry>, bundles: set<BundleInInbox>)
    ensures Bundles(Only(entries, bundles)) == Bundles(entries) * bundles
  {
    if entries != [] {
      OnlyMembers(entries[1..], bundles);
      BundlesOfConcatenation([entries[0]], entries[1..]);
      assert [entries[0]] + entries[1..] == entries;
      BundlesOfConcatenation(if entries[0].bundle in bundles then [entries[0]] else [], Only(entries[1..], bundles));
    }
  }

  /**
   * The queue without the removed bundles is exactly the unskippable bundles waiting in all
   * inboxes, in the order of their arrival.
   */
  lemma QueueListsTheWaiting(inboxes: map<Origin, Inbox>, arrivals: seq<Entry>, queue: seq<Entry>,
                             removed: set<BundleInInbox>)
    requires Consistent(inboxes, arrivals, queue, removed)
    ensures Except(queue, removed) == Only(arrivals, Waiting(inboxes))
    ensures Bundles(Except(queue, removed)) == Waiting(inboxes)
  {
    var k := |arrivals| - |queue|;
    OnlySkipsPrefix(arrivals, k, Waiting(inboxes));
    forall i | 0 <= i < |queue| ensures queue[i].bundle in Waiting(inboxes) <==> queue[i].bundle !in removed {
      assert queue[i] == arrivals[k + i];
    }
    OnlyIsExcept(queue, Waiting(inboxes), removed);
    OnlyMembers(arrivals, Waiting(inboxes));
  }

  /** The front of the queue is the oldest bundle still waiting; it is empty only if none waits. */
  lemma FrontIsTheOldest(inboxes: map<Origin, Inbox>, arrivals: seq<Entry>, queue: seq<Entry>,
                         removed: set<BundleInInbox>)
    requires Consistent(inboxes, arrivals, queue, removed)
    ensures queue == [] <==> Waiting(inboxes) == {}
    ensures queue != [] ==>
              var waiting := Only(arrivals, Waiting(inboxes)); waiting != [] && queue[0] == waiting[0]
    ensures queue != [] ==> exists k | 0 <= k < |arrivals| ::
              && queue[0] == arrivals[k] && arrivals[k].bundle in Waiting(inboxes)
              && forall i | 0 <= i < k :: arrivals[i].bundle !in Waiting(inboxes)
  {
    if queue != [] {
      var k := |arrivals| - |queue|;
      assert arrivals[k] == queue[0] && arrivals[k].bundle in Waiting(inboxes);
    }
    QueueListsTheWaiting(inboxes, arrivals, queue, removed);
    if queue != [] {
      assert Except(queue, removed)[0] == queue[0];
      assert queue[0] in Except(queue, removed);
    }
  }
}
