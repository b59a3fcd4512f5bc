/**
 * The inbox of one origin: bundles are added when they are received and removed when a block
 * executes them, in whichever order the two happen.
 */
module Inboxes {
  import opened Basics

  datatype MessageKind = Simple | Protected | Tracked | Bouncing

  datatype GenericApplicationId = System | User(id: nat)

  datatype SystemMessageKind = Subscribe | Unsubscribe | OtherSystemMessage

  datatype Message =
    | SystemMessage(kind: SystemMessageKind, content: nat)
    | UserMessage(applicationId: nat, content: nat)
  {
    function Application(): GenericApplicationId {
      if SystemMessage? then System else User(applicationId)
    }

    /** Subscriptions are handled at once and never wait in an inbox. */
    predicate GoesToInbox() {
      SystemMessage? ==> kind.OtherSystemMessage?
    }
  }

  datatype PostedMessage = PostedMessage(
    authenticatedSigner: Option<nat>,
    grant: u128,
    refundGrantTo: Option<nat>,
    kind: MessageKind,
    index: u32,
    message: Message)
  {
    predicate IsSkippable() {
      match kind
      case Protected => false
      case Tracked => false
      case _ => grant == 0
    }
  }

  datatype MessageBundle = MessageBundle(
    height: u64,
    timestamp: u64,
    certificateHash: nat,
    transactionIndex: u32,
    messages: seq<PostedMessage>)
  {
    function Position(): Cursor {
      Cursor(height, transactionIndex)
    }

    predicate IsSkippable() {
      forall m | m in messages :: m.IsSkippable()
    }

    predicate GoesToInbox() {
      exists m | m in messages :: m.message.GoesToInbox()
    }
  }

  datatype Cursor = Cursor(height: u64, index: u32) {
    /** The order derived on cursors: first by height, then by index. */
    predicate Below(other: Cursor) {
      height < other.height || (height == other.height && index < other.index)
    }

    function TryAddOne(): Option<Cursor> {
      if index == U32_MAX then None else Some(Cursor(height, index + 1))
    }
  }

  datatype InboxError = ArithmeticOverflow | UnexpectedBundle | IncorrectOrder | UnskippableBundle

  datatype Inbox = Inbox(
    nextCursorToAdd: Cursor,
    nextCursorToRemove: Cursor,
    added: seq<MessageBundle>,
    removed: seq<MessageBundle>)

  const EMPTY_INBOX := Inbox(Cursor(0, 0), Cursor(0, 0), [], [])

  /** Drops the skippable bundles below a cursor; `None` if one of them cannot be skipped. */
  function SkipBelow(queue: seq<MessageBundle>, cursor: Cursor): Option<seq<MessageBundle>> {
    if queue == [] || !queue[0].Position().Below(cursor) then Some(queue)
    else if !queue[0].IsSkippable() then None
    else SkipBelow(queue[1..], cursor)
  }

  /** Consumes a bundle; the flag tells whether it was waiting in the inbox. */
  function Remove(s: Inbox, b: MessageBundle): Result<(Inbox, bool), InboxError> {
    var cursor := b.Position();
    if cursor.Below(s.nextCursorToRemove) then Err(IncorrectOrder)
    else
      var rest := SkipBelow(s.added, cursor);
      if rest.None? then Err(UnskippableBundle)
      else if rest.value != [] && rest.value[0] != b then Err(UnexpectedBundle)
      else if cursor.TryAddOne().None? then Err(ArithmeticOverflow)
      else if rest.value != [] then
        Ok((s.(added := rest.value[1..], nextCursorToRemove := cursor.TryAddOne().value), true))
      else
        Ok((s.(added := [], removed := s.removed + [b], nextCursorToRemove := cursor.TryAddOne().value), false))
  }

  /** Adds a bundle; the flag tells whether it is new rather than executed ahead of time. */
  function Add(s: Inbox, b: MessageBundle): Result<(Inbox, bool), InboxError> {
    var cursor := b.Position();
    if cursor.Below(s.nextCursorToAdd) then Err(IncorrectOrder)
    else if && s.removed != []
            && (if s.removed[0].Position() == cursor then b != s.removed[0]
                else !(cursor.Below(s.removed[0].Position()) && b.IsSkippable())) then
      Err(UnexpectedBundle)
    else if cursor.TryAddOne().None? then Err(ArithmeticOverflow)
    else
      var s1 := s.(nextCursorToAdd := cursor.TryAddOne().value);
      if s.removed == [] then Ok((s1.(added := s.added + [b]), true))
      else if s.removed[0].Position() == cursor then Ok((s1.(removed := s.removed[1..]), false))
      else Ok((s1, false))
  }

  /** The inbox object. After an error the state is discarded by the caller. */
  class InboxState {
    var nextCursorToAdd: Cursor
    var nextCursorToRemove: Cursor
    var addedBundles: seq<MessageBundle>
    var removedBundles: seq<MessageBundle>

    function Value(): Inbox
      reads this
    {
      Inbox(nextCursorToAdd, nextCursorToRemove, addedBundles, removedBundles)
    }

    constructor ()
      ensures Value() == EMPTY_INBOX
    {
      nextCursorToAdd := Cursor(0, 0);
      nextCursorToRemove := Cursor(0, 0);
      addedBundles := [];
      removedBundles := [];
    }

    method RemoveBundle(bundle: MessageBundle) returns (r: Result<bool, InboxError>)
      modifies this
      ensures r.Ok? ==> old(Remove(Value(), bundle)) == Ok((Value(), r.value))
      ensures r.Err? ==> old(Remove(Value(), bundle)) == Err(r.error)
    {
      var cursor := bundle.Position();
      if cursor.Below(nextCursorToRemove) {
        return Err(IncorrectOrder);
      }
      // The block passes over everything below its bundle.
      while addedBundles != [] && addedBundles[0].Position().Below(cursor)
        invariant SkipBelow(addedBundles, cursor) == old(SkipBelow(addedBundles, cursor))
        invariant unchanged(`nextCursorToAdd) && unchanged(`nextCursorToRemove) && unchanged(`removedBundles)
        decreases |addedBundles|
      {
        if !addedBundles[0].IsSkippable() {
          return Err(UnskippableBundle);
        }
        addedBundles := addedBundles[1..];
      }
      // Either the bundle is next in the inbox, or it is executed ahead of time.
      var alreadyKnown;
      if addedBundles != [] {
        if bundle != addedBundles[0] {
          return Err(UnexpectedBundle);
        }
        addedBundles := addedBundles[1..];
        alreadyKnown := true;
      } else {
        removedBundles := removedBundles + [bundle];
        alreadyKnown := false;
      }
      var next := cursor.TryAddOne();
      if next.None? {
        return Err(ArithmeticOverflow);
      }
      nextCursorToRemove := next.value;
      return Ok(alreadyKnown);
    }

    method AddBundle(bundle: MessageBundle) returns (r: Result<bool, InboxError>)
      modifies this
      ensures r.Ok? ==> old(Add(Value(), bundle)) == Ok((Value(), r.value))
      ensures r.Err? ==> old(Add(Value(), bundle)) == Err(r.error)
    {
      var cursor := bundle.Position();
      if cursor.Below(nextCursorToAdd) {
        return Err(IncorrectOrder);
      }
      // A bundle executed ahead of time must be this one or come later.
      var newlyAdded;
      if removedBundles != [] {
        var previous := removedBundles[0];
        if previous.Position() == cursor {
          if bundle != previous {
            return Err(UnexpectedBundle);
          }
          removedBundles := removedBundles[1..];
        } else {
          if !(cursor.Below(previous.Position()) && bundle.IsSkippable()) {
            return Err(UnexpectedBundle);
          }
        }
        newlyAdded := false;
      } else {
        addedBundles := addedBundles + [bundle];
        newlyAdded := true;
      }
      var next := cursor.TryAddOne();
      if next.None? {
        return Err(ArithmeticOverflow);
      }
      nextCursorToAdd := next.value;
      return Ok(newlyAdded);
    }
  }

  // ----- What a history of additions and removals amounts to -----

  /** The place of a cursor in the order, so that `Below` compares numbers. */
  function Rank(c: Cursor): nat {
    c.height * (U32_MAX + 1) + c.index
  }

  function At(b: MessageBundle): nat {
    Rank(b.Position())
  }

  lemma RankEmbedsTheOrder(a: Cursor, b: Cursor)
    ensures a.Below(b) <==> Rank(a) < Rank(b)
    ensures a == b <==> Rank(a) == Rank(b)
    ensures a.TryAddOne().Some? ==> Rank(a.TryAddOne().value) == Rank(a) + 1
  {}

  predicate Increasing(xs: seq<MessageBundle>) {
    forall i, j | 0 <= i < j < |xs| :: At(xs[i]) < At(xs[j])
  }

  /** The cursor after the last bundle of a history. */
  function NextCursor(xs: seq<MessageBundle>): Cursor {
    if xs == [] then Cursor(0, 0)
    else
      var last := xs[|xs| - 1].Position();
      if last.TryAddOne().Some? then last.TryAddOne().value else last
  }

  /** The bundles at a place or after it. */
  function AtOrPast(xs: seq<MessageBundle>, place: nat): seq<MessageBundle> {
    if xs == [] then []
    else (if At(xs[0]) >= place then [xs[0]] else []) + AtOrPast(xs[1..], place)
  }

  predicate IsHistory(xs: seq<MessageBundle>) {
    Increasing(xs) && forall b | b in xs :: b.Position().TryAddOne().Some?
  }

  /**
   * When additions and removals fit together: what was removed within the added range was added,
   * and what was added within the removed range was removed or may be skipped.
   */
  predicate Reconcilable(adds: seq<MessageBundle>, removes: seq<MessageBundle>) {
    && IsHistory(adds) && IsHistory(removes)
    && Received(removes, adds, Rank(NextCursor(adds)))
    && Settled(adds, removes, Rank(NextCursor(removes)))
  }

  predicate Received(removes: seq<MessageBundle>, adds: seq<MessageBundle>, place: nat) {
    forall r | r in removes && At(r) < place :: r in adds
  }

  predicate Settled(adds: seq<MessageBundle>, removes: seq<MessageBundle>, place: nat) {
    forall a | a in adds && At(a) < place :: a in removes || a.IsSkippable()
  }

  /** The inbox is determined by the two histories alone. */
  function InboxFor(adds: seq<MessageBundle>, removes: seq<MessageBundle>): Inbox {
    Inbox(NextCursor(adds), NextCursor(removes),
          AtOrPast(adds, Rank(NextCursor(removes))), AtOrPast(removes, Rank(NextCursor(adds))))
  }

  lemma {:induction false} AtOrPastMembers(xs: seq<MessageBundle>, place: nat)
    ensures forall b :: b in AtOrPast(xs, place) <==> b in xs && At(b) >= place
  {
    if xs != [] {
      AtOrPastMembers(xs[1..], place);
      assert forall b :: b in xs <==> b == xs[0] || b in xs[1..];
    }
  }

  lemma {:induction false} AtOrPastAppend(xs: seq<MessageBundle>, x: MessageBundle, place: nat)
    ensures AtOrPast(xs + [x], place) == AtOrPast(xs, place) + if At(x) >= place then [x] else []
  {
    if xs != [] {
      AtOrPastAppend(xs[1..], x, place);
      assert (xs + [x])[1..] == xs[1..] + [x];
    }
  }

  lemma {:induction false} AtOrPastAgain(xs: seq<MessageBundle>, low: nat, high: nat)
    requires low <= high
    ensures AtOrPast(AtOrPast(xs, low), high) == AtOrPast(xs, high)
  {
    if xs != [] {
      AtOrPastAgain(xs[1..], low, high);
      var rest := AtOrPast(xs[1..], low);
      if At(xs[0]) >= low {
        assert ([xs[0]] + rest)[1..] == rest;
      } else {
        assert [] + rest == rest;
      }
    }
  }

  lemma {:induction false} AtOrPastAll(xs: seq<MessageBundle>, place: nat)
    requires forall b | b in xs :: At(b) >= place
    ensures AtOrPast(xs, place) == xs
  {
    if xs != [] {
      assert xs[0] in xs && forall b | b in xs[1..] :: b in xs;
      AtOrPastAll(xs[1..], place);
    }
  }

  lemma {:induction false} AtOrPastIncreasing(xs: seq<MessageBundle>, place: nat)
    requires Increasing(xs)
    ensures Increasing(AtOrPast(xs, place))
  {
    if xs != [] {
      AtOrPastIncreasing(xs[1..], place);
      AtOrPastMembers(xs[1..], place);
      var rest := AtOrPast(xs[1..], place);
      forall j | 0 <= j < |rest| ensures At(xs[0]) < At(rest[j]) {
        assert rest[j] in xs[1..];
      }
    }
  }

  /** Advancing past the front of a queue drops the bundles below the new place. */
  lemma {:induction false} SkipBelowIsAtOrPast(queue: seq<MessageBundle>, cursor: Cursor)
    requires Increasing(queue)
    ensures SkipBelow(queue, cursor).Some? <==> forall b | b in queue && At(b) < Rank(cursor) :: b.IsSkippable()
    ensures SkipBelow(queue, cursor).Some? ==> SkipBelow(queue, cursor).value == AtOrPast(queue, Rank(cursor))
  {
    if queue != [] {
      RankEmbedsTheOrder(queue[0].Position(), cursor);
      assert forall b :: b in queue <==> b == queue[0] || b in queue[1..];
      if queue[0].Position().Below(cursor) {
        SkipBelowIsAtOrPast(queue[1..], cursor);
      } else {
        forall b | b in queue ensures At(b) >= Rank(cursor) {
          var i :| 0 <= i < |queue| && queue[i] == b;
        }
        AtOrPastAll(queue, Rank(cursor));
      }
    }
  }

  lemma HistoryBounds(xs: seq<MessageBundle>)
    requires IsHistory(xs)
    ensures forall b | b in xs :: At(b) < Rank(NextCursor(xs))
    ensures xs != [] ==> Rank(NextCursor(xs)) == At(xs[|xs| - 1]) + 1
  {
    if xs != [] {
      var last := xs[|xs| - 1];
      assert last in xs;
      RankEmbedsTheOrder(last.Position(), last.Position());
    }
  }

  /** A history is extended exactly by a bundle at its next cursor or after it. */
  lemma HistoryAppend(xs: seq<MessageBundle>, x: MessageBundle)
    requires IsHistory(xs)
    ensures IsHistory(xs + [x]) <==> !x.Position().Below(NextCursor(xs)) && x.Position().TryAddOne().Some?
    ensures IsHistory(xs + [x]) ==>
              NextCursor(xs + [x]) == x.Position().TryAddOne().value && Rank(NextCursor(xs + [x])) == At(x) + 1
  {
    HistoryBounds(xs);
    RankEmbedsTheOrder(x.Position(), NextCursor(xs));
    assert x in xs + [x];
    assert forall b :: b in xs + [x] <==> b in xs || b == x;
    if xs != [] && At(x) < Rank(NextCursor(xs)) {
      assert (xs + [x])[|xs| - 1] == xs[|xs| - 1] && (xs + [x])[|xs|] == x;
    }
  }

  lemma HistoryPrefix(xs: seq<MessageBundle>, x: MessageBundle)
    requires IsHistory(xs + [x])
    ensures IsHistory(xs)
  {
    forall i, j | 0 <= i < j < |xs| ensures At(xs[i]) < At(xs[j]) {
      assert (xs + [x])[i] == xs[i] && (xs + [x])[j] == xs[j];
    }
    assert forall b | b in xs :: b in xs + [x];
  }

  /** The front of the bundles at a place or after it is the lowest of them. */
  lemma FrontIsLowest(xs: seq<MessageBundle>, place: nat)
    requires IsHistory(xs)
    ensures var q := AtOrPast(xs, place);
            && Increasing(q)
            && (forall b :: b in q <==> b in xs && At(b) >= place)
            && (q != [] ==>
                  && q[0] in xs && At(q[0]) >= place
                  && forall b | b in xs && At(b) >= place :: At(q[0]) <= At(b))
  {
    AtOrPastMembers(xs, place);
    AtOrPastIncreasing(xs, place);
    var q := AtOrPast(xs, place);
    if q != [] {
      assert q[0] in q;
      forall b | b in xs && At(b) >= place ensures At(q[0]) <= At(b) {
        var i :| 0 <= i < |q| && q[i] == b;
      }
    }
  }

  lemma SameCursorSameBundle(xs: seq<MessageBundle>, a: MessageBundle, b: MessageBundle)
    requires Increasing(xs) && a in xs && b in xs && At(a) == At(b)
    ensures a == b
  {
    var i :| 0 <= i < |xs| && xs[i] == a;
    var j :| 0 <= j < |xs| && xs[j] == b;
  }

  lemma InAppend(xs: seq<MessageBundle>, x: MessageBundle, b: MessageBundle)
    ensures b in xs + [x] <==> b in xs || b == x
  {}

  /** Extending the additions by `a` also reaches the removals up to its cursor. */
  lemma ReceivedAppend(removes: seq<MessageBundle>, adds: seq<MessageBundle>, a: MessageBundle, place: nat)
    requires Received(removes, adds, place) && At(a) >= place
    requires forall b | b in adds :: At(b) < place
    ensures Received(removes, adds + [a], At(a) + 1) <==> forall r | r in removes && place <= At(r) <= At(a) :: r == a
  {
    forall b ensures b in adds + [a] <==> b in adds || b == a {
      InAppend(adds, a, b);
    }
  }

  lemma SettledAppend(adds: seq<MessageBundle>, removes: seq<MessageBundle>, a: MessageBundle, place: nat)
    ensures Settled(adds + [a], removes, place) <==>
              Settled(adds, removes, place) && (At(a) < place ==> a in removes || a.IsSkippable())
  {
    forall b ensures b in adds + [a] <==> b in adds || b == a {
      InAppend(adds, a, b);
    }
  }

  /** Extending the removals by `r` settles it and the additions below its cursor. */
  lemma SettledExtend(adds: seq<MessageBundle>, removes: seq<MessageBundle>, r: MessageBundle, place: nat)
    requires Settled(adds, removes, place) && At(r) >= place
    requires forall b | b in removes :: At(b) < place
    ensures Settled(adds, removes + [r], At(r) + 1) <==>
              forall a | a in adds && place <= At(a) <= At(r) :: a == r || a.IsSkippable()
  {
    forall b ensures b in removes + [r] <==> b in removes || b == r {
      InAppend(removes, r, b);
    }
  }

  lemma ReceivedExtend(removes: seq<MessageBundle>, adds: seq<MessageBundle>, r: MessageBundle, place: nat)
    ensures Received(removes + [r], adds, place) <==> Received(removes, adds, place) && (At(r) < place ==> r in adds)
  {
    forall b ensures b in removes + [r] <==> b in removes || b == r {
      InAppend(removes, r, b);
    }
  }

  /** What the front of the anticipated removals demands of an added bundle. */
  predicate AddFits(anticipated: seq<MessageBundle>, a: MessageBundle) {
    || anticipated == []
    || anticipated[0] == a
    || (At(a) < At(anticipated[0]) && a.IsSkippable())
  }

  lemma AddFitsExactlyIfReconcilable(adds: seq<MessageBundle>, removes: seq<MessageBundle>, a: MessageBundle)
    requires Reconcilable(adds, removes) && IsHistory(adds + [a])
    ensures Reconcilable(adds + [a], removes) <==> AddFits(AtOrPast(removes, Rank(NextCursor(adds))), a)
  {
    var place := Rank(NextCursor(adds));
    FrontIsLowest(removes, place);
    HistoryBounds(adds);
    HistoryBounds(removes);
    HistoryAppend(adds, a);
    RankEmbedsTheOrder(a.Position(), NextCursor(adds));
    ReceivedAppend(removes, adds, a, place);
    SettledAppend(adds, removes, a, Rank(NextCursor(removes)));
    FrontDecidesAddition(removes, place, a, Rank(NextCursor(removes)));
  }

  lemma FrontDecidesAddition(removes: seq<MessageBundle>, place: nat, a: MessageBundle, end: nat)
    requires IsHistory(removes) && At(a) >= place
    requires forall b | b in removes :: At(b) < end
    requires if removes == [] then end == 0 else end <= At(removes[|removes| - 1]) + 1
    ensures AddFits(AtOrPast(removes, place), a) <==>
              && (forall r | r in removes && place <= At(r) <= At(a) :: r == a)
              && (At(a) < end ==> a in removes || a.IsSkippable())
  {
    FrontIsLowest(removes, place);
    var q := AtOrPast(removes, place);
    if q == [] {
      if removes != [] {
        assert removes[|removes| - 1] in removes;
      }
    } else if q[0] == a {
      forall r | r in removes && place <= At(r) <= At(a) ensures r == a {
        SameCursorSameBundle(removes, r, a);
      }
    }
  }

  /** The inbox after an accepted addition. */
  function Added(s: Inbox, a: MessageBundle): Inbox
    requires a.Position().TryAddOne().Some?
  {
    Inbox(a.Position().TryAddOne().value, s.nextCursorToRemove,
          if s.removed == [] then s.added + [a] else s.added,
          if s.removed != [] && s.removed[0] == a then s.removed[1..] else s.removed)
  }

  lemma AddAccepts(s: Inbox, a: MessageBundle)
    requires !a.Position().Below(s.nextCursorToAdd) && a.Position().TryAddOne().Some?
    ensures Add(s, a).Ok? <==> AddFits(s.removed, a)
    ensures AddFits(s.removed, a) ==> Add(s, a).value == (Added(s, a), s.removed == [])
  {
    if s.removed != [] {
      RankEmbedsTheOrder(a.Position(), s.removed[0].Position());
    }
  }

  lemma AdvanceQueue(xs: seq<MessageBundle>, place: nat, a: MessageBundle)
    requires IsHistory(xs) && place <= At(a) && AddFits(AtOrPast(xs, place), a)
    ensures var q := AtOrPast(xs, place);
            AtOrPast(xs, At(a) + 1) == if q != [] && q[0] == a then q[1..] else q
  {
    AtOrPastAgain(xs, place, At(a) + 1);
    AtOrPastIncreasing(xs, place);
    AdvanceByOne(AtOrPast(xs, place), a);
  }

  lemma AddedIsInboxFor(adds: seq<MessageBundle>, removes: seq<MessageBundle>, a: MessageBundle)
    requires IsHistory(adds) && IsHistory(removes) && IsHistory(adds + [a])
    requires AddFits(AtOrPast(removes, Rank(NextCursor(adds))), a)
    requires a.Position().TryAddOne().Some?
    ensures Added(InboxFor(adds, removes), a) == InboxFor(adds + [a], removes)
  {
    var place := Rank(NextCursor(adds));
    HistoryAppend(adds, a);
    RankEmbedsTheOrder(a.Position(), NextCursor(adds));
    AtOrPastAppend(adds, a, Rank(NextCursor(removes)));
    AnticipatedExactlyAbove(adds, removes, a);
    AdvanceQueue(removes, place, a);
  }

  /** An addition succeeds exactly if the extended histories still fit together. */
  lemma AddStep(adds: seq<MessageBundle>, removes: seq<MessageBundle>, a: MessageBundle)
    requires Reconcilable(adds, removes)
    ensures Add(InboxFor(adds, removes), a).Ok? <==> Reconcilable(adds + [a], removes)
    ensures Reconcilable(adds + [a], removes) ==>
              Add(InboxFor(adds, removes), a).value
              == (InboxFor(adds + [a], removes), At(a) >= Rank(NextCursor(removes)))
  {
    HistoryAppend(adds, a);
    if IsHistory(adds + [a]) {
      AddFitsExactlyIfReconcilable(adds, removes, a);
      AddAccepts(InboxFor(adds, removes), a);
      if AddFits(AtOrPast(removes, Rank(NextCursor(adds))), a) {
        RankEmbedsTheOrder(a.Position(), NextCursor(adds));
        AddedIsInboxFor(adds, removes, a);
        AnticipatedExactlyAbove(adds, removes, a);
      }
    }
  }

  /** A bundle that fits is new exactly if nothing past its cursor was removed. */
  lemma AnticipatedExactlyAbove(adds: seq<MessageBundle>, removes: seq<MessageBundle>, a: MessageBundle)
    requires IsHistory(removes) && At(a) >= Rank(NextCursor(adds))
    requires AddFits(AtOrPast(removes, Rank(NextCursor(adds))), a)
    ensures AtOrPast(removes, Rank(NextCursor(adds))) == [] <==> At(a) >= Rank(NextCursor(removes))
  {
    FrontIsLowest(removes, Rank(NextCursor(adds)));
    HistoryBounds(removes);
    if removes != [] {
      assert removes[|removes| - 1] in removes;
    }
  }

  /** Receiving a bundle moves the queue of anticipated removals past its cursor. */
  lemma AdvanceByOne(q: seq<MessageBundle>, a: MessageBundle)
    requires Increasing(q) && AddFits(q, a)
    ensures AtOrPast(q, At(a) + 1) == if q != [] && q[0] == a then q[1..] else q
  {
    if q != [] && q[0] == a {
      IncreasingTail(q);
      AllPast(q[1..], At(a) + 1);
    } else {
      AllPast(q, At(a) + 1);
    }
  }

  lemma IncreasingTail(q: seq<MessageBundle>)
    requires Increasing(q) && q != []
    ensures Increasing(q[1..])
    ensures q[1..] != [] ==> At(q[0]) + 1 <= At(q[1..][0])
  {
    var rest := q[1..];
    forall i, j | 0 <= i < j < |rest| ensures At(rest[i]) < At(rest[j]) {
      assert At(q[i + 1]) < At(q[j + 1]);
    }
  }

  /** A queue in order whose front is past a place is past it altogether. */
  lemma AllPast(q: seq<MessageBundle>, place: nat)
    requires Increasing(q) && (q != [] ==> place <= At(q[0]))
    ensures AtOrPast(q, place) == q
  {
    forall b | b in q ensures At(b) >= place {
      var i :| 0 <= i < |q| && q[i] == b;
      assert i > 0 ==> At(q[0]) < At(q[i]);
    }
    AtOrPastAll(q, place);
  }

  /** What the waiting bundles demand of a removed bundle. */
  predicate RemoveFits(waiting: seq<MessageBundle>, r: MessageBundle) {
    && (forall b | b in waiting && At(b) < At(r) :: b.IsSkippable())
    && var rest := AtOrPast(waiting, At(r)); rest == [] || rest[0] == r
  }

  lemma RestDecides(adds: seq<MessageBundle>, r: MessageBundle, end: nat)
    requires IsHistory(adds)
    requires forall b | b in adds :: At(b) < end
    requires if adds == [] then end == 0 else end <= At(adds[|adds| - 1]) + 1
    ensures var rest := AtOrPast(adds, At(r));
            (rest == [] || rest[0] == r) <==> (At(r) < end ==> r in adds)
  {
    FrontIsLowest(adds, At(r));
    var rest := AtOrPast(adds, At(r));
    if adds != [] {
      assert adds[|adds| - 1] in adds;
    }
    if rest != [] && r in adds {
      SameCursorSameBundle(adds, rest[0], r);
    }
  }

  lemma FrontDecidesRemoval(adds: seq<MessageBundle>, place: nat, r: MessageBundle, end: nat)
    requires IsHistory(adds) && At(r) >= place
    requires forall b | b in adds :: At(b) < end
    requires if adds == [] then end == 0 else end <= At(adds[|adds| - 1]) + 1
    ensures RemoveFits(AtOrPast(adds, place), r) <==>
              && (forall a | a in adds && place <= At(a) <= At(r) :: a == r || a.IsSkippable())
              && (At(r) < end ==> r in adds)
  {
    AtOrPastMembers(adds, place);
    AtOrPastAgain(adds, place, At(r));
    RestDecides(adds, r, end);
    if At(r) < end ==> r in adds {
      forall a | a in adds && At(a) == At(r) ensures a == r {
        SameCursorSameBundle(adds, a, r);
      }
    }
  }

  lemma RemoveFitsExactlyIfReconcilable(adds: seq<MessageBundle>, removes: seq<MessageBundle>, r: MessageBundle)
    requires Reconcilable(adds, removes) && IsHistory(removes + [r])
    ensures Reconcilable(adds, removes + [r]) <==> RemoveFits(AtOrPast(adds, Rank(NextCursor(removes))), r)
  {
    var place := Rank(NextCursor(removes));
    HistoryBounds(adds);
    HistoryBounds(removes);
    HistoryAppend(removes, r);
    RankEmbedsTheOrder(r.Position(), NextCursor(removes));
    SettledExtend(adds, removes, r, place);
    ReceivedExtend(removes, adds, r, Rank(NextCursor(adds)));
    FrontDecidesRemoval(adds, place, r, Rank(NextCursor(adds)));
  }

  /** The inbox after an accepted removal. */
  function Removed(s: Inbox, r: MessageBundle): Inbox
    requires r.Position().TryAddOne().Some?
  {
    var rest := AtOrPast(s.added, At(r));
    Inbox(s.nextCursorToAdd, r.Position().TryAddOne().value,
          if rest == [] then [] else rest[1..],
          if rest == [] then s.removed + [r] else s.removed)
  }

  lemma RemoveAccepts(s: Inbox, r: MessageBundle)
    requires Increasing(s.added)
    requires !r.Position().Below(s.nextCursorToRemove) && r.Position().TryAddOne().Some?
    ensures Remove(s, r).Ok? <==> RemoveFits(s.added, r)
    ensures RemoveFits(s.added, r) ==> Remove(s, r).value == (Removed(s, r), AtOrPast(s.added, At(r)) != [])
  {
    SkipBelowIsAtOrPast(s.added, r.Position());
  }

  lemma RemovedIsInboxFor(adds: seq<MessageBundle>, removes: seq<MessageBundle>, r: MessageBundle)
    requires IsHistory(adds) && IsHistory(removes) && IsHistory(removes + [r])
    requires RemoveFits(AtOrPast(adds, Rank(NextCursor(removes))), r)
    requires r.Position().TryAddOne().Some?
    ensures Removed(InboxFor(adds, removes), r) == InboxFor(adds, removes + [r])
    ensures AtOrPast(AtOrPast(adds, Rank(NextCursor(removes))), At(r)) != [] <==> r in adds
  {
    var place := Rank(NextCursor(removes));
    HistoryAppend(removes, r);
    RankEmbedsTheOrder(r.Position(), NextCursor(removes));
    AtOrPastAppend(removes, r, Rank(NextCursor(adds)));
    AtOrPastAgain(adds, place, At(r));
    AdvanceQueue(adds, At(r), r);
    KnownExactlyIfAdded(adds, r);
  }

  lemma KnownExactlyIfAdded(adds: seq<MessageBundle>, r: MessageBundle)
    requires IsHistory(adds)
    requires var rest := AtOrPast(adds, At(r)); rest == [] || rest[0] == r
    ensures AtOrPast(adds, At(r)) != [] <==> r in adds
    ensures AtOrPast(adds, At(r)) != [] <==> At(r) < Rank(NextCursor(adds))
  {
    HistoryBounds(adds);
    FrontIsLowest(adds, At(r));
    if adds != [] {
      assert adds[|adds| - 1] in adds;
    }
  }

  /** A removal succeeds exactly if the extended histories still fit together. */
  lemma RemoveStep(adds: seq<MessageBundle>, removes: seq<MessageBundle>, r: MessageBundle)
    requires Reconcilable(adds, removes)
    ensures Remove(InboxFor(adds, removes), r).Ok? <==> Reconcilable(adds, removes + [r])
    ensures Reconcilable(adds, removes + [r]) ==>
              Remove(InboxFor(adds, removes), r).value == (InboxFor(adds, removes + [r]), r in adds)
  {
    HistoryAppend(removes, r);
    AtOrPastIncreasing(adds, Rank(NextCursor(removes)));
    if IsHistory(removes + [r]) {
      RemoveFitsExactlyIfReconcilable(adds, removes, r);
      RemoveAccepts(InboxFor(adds, removes), r);
      if RemoveFits(AtOrPast(adds, Rank(NextCursor(removes))), r) {
        RemovedIsInboxFor(adds, removes, r);
      }
    }
  }

  lemma PrefixesReconcile(adds: seq<MessageBundle>, removes: seq<MessageBundle>, b: MessageBundle)
    ensures Reconcilable(adds + [b], removes) ==> Reconcilable(adds, removes)
    ensures Reconcilable(adds, removes + [b]) ==> Reconcilable(adds, removes)
  {
    if Reconcilable(adds + [b], removes) {
      HistoryPrefix(adds, b);
      HistoryAppend(adds, b);
      RankEmbedsTheOrder(b.Position(), NextCursor(adds));
      SettledAppend(adds, removes, b, Rank(NextCursor(removes)));
      forall r | r in removes && At(r) < Rank(NextCursor(adds)) ensures r in adds {
        InAppend(adds, b, r);
      }
    }
    if Reconcilable(adds, removes + [b]) {
      HistoryPrefix(removes, b);
      HistoryAppend(removes, b);
      RankEmbedsTheOrder(b.Position(), NextCursor(removes));
      ReceivedExtend(removes, adds, b, Rank(NextCursor(adds)));
      forall a | a in adds && At(a) < Rank(NextCursor(removes)) ensures a in removes || a.IsSkippable() {
        InAppend(removes, b, a);
      }
    }
  }

  // ----- Runs -----

  datatype Op = AddOp(bundle: MessageBundle) | RemoveOp(bundle: MessageBundle)

  /** The inbox after a sequence of operations, or `None` once one of them failed. */
  function Run(ops: seq<Op>): Option<Inbox> {
    if ops == [] then Some(EMPTY_INBOX)
    else
      var s := Run(ops[..|ops| - 1]);
      if s.None? then None else Apply(s.value, ops[|ops| - 1])
  }

  function Apply(s: Inbox, op: Op): Option<Inbox> {
    var r := if op.AddOp? then Add(s, op.bundle) else Remove(s, op.bundle);
    if r.Ok? then Some(r.value.0) else None
  }

  function Adds(ops: seq<Op>): seq<MessageBundle> {
    if ops == [] then []
    else
      var op := ops[|ops| - 1];
      Adds(ops[..|ops| - 1]) + if op.AddOp? then [op.bundle] else []
  }

  function Removes(ops: seq<Op>): seq<MessageBundle> {
    if ops == [] then []
    else
      var op := ops[|ops| - 1];
      Removes(ops[..|ops| - 1]) + if op.RemoveOp? then [op.bundle] else []
  }

  /** The meaning of a run: it succeeds exactly if its two histories fit, and leaves what they say. */
  lemma {:induction false} RunReconciles(ops: seq<Op>)
    ensures Run(ops).Some? <==> Reconcilable(Adds(ops), Removes(ops))
    ensures Run(ops).Some? ==> Run(ops).value == InboxFor(Adds(ops), Removes(ops))
  {
    if ops != [] {
      var before, op := ops[..|ops| - 1], ops[|ops| - 1];
      var adds, removes := Adds(before), Removes(before);
      RunReconciles(before);
      PrefixesReconcile(adds, removes, op.bundle);
      if Reconcilable(adds, removes) {
        OpReconciles(adds, removes, op);
      }
      assert Adds(ops) == if op.AddOp? then adds + [op.bundle] else adds;
      assert Removes(ops) == if op.AddOp? then removes else removes + [op.bundle];
    }
  }

  lemma OpReconciles(adds: seq<MessageBundle>, removes: seq<MessageBundle>, op: Op)
    requires Reconcilable(adds, removes)
    ensures var adds' := if op.AddOp? then adds + [op.bundle] else adds;
            var removes' := if op.AddOp? then removes else removes + [op.bundle];
            Apply(InboxFor(adds, removes), op) ==
            if Reconcilable(adds', removes') then Some(InboxFor(adds', removes')) else None
  {
    if op.AddOp? {
      AddStep(adds, removes, op.bundle);
    } else {
      RemoveStep(adds, removes, op.bundle);
    }
  }

  /** Every interleaving of the same additions and removals has the same outcome. */
  lemma InterleavingsAgree(ops: seq<Op>, ops': seq<Op>)
    requires Adds(ops) == Adds(ops') && Removes(ops) == Removes(ops')
    ensures Run(ops) == Run(ops')
  {
    RunReconciles(ops);
    RunReconciles(ops');
  }

  predicate IsSubsequence(xs: seq<MessageBundle>, ys: seq<MessageBundle>) {
    if xs == [] then true
    else if ys == [] then false
    else if xs[0] == ys[0] then IsSubsequence(xs[1..], ys[1..])
    else IsSubsequence(xs, ys[1..])
  }

  lemma {:induction false} IncreasingSubsetIsSubsequence(xs: seq<MessageBundle>, ys: seq<MessageBundle>)
    requires Increasing(xs) && Increasing(ys)
    requires forall x | x in xs :: x in ys
    ensures IsSubsequence(xs, ys)
    decreases |ys|
  {
    if xs != [] {
      assert xs[0] in ys;
      var rest := if xs[0] == ys[0] then xs[1..] else xs;
      forall x | x in rest ensures x in ys[1..] {
        assert x in xs;
        var i :| 0 <= i < |xs| && xs[i] == x && (xs[0] == ys[0] ==> i > 0);
        var j :| 0 <= j < |ys| && ys[j] == x;
        var k :| 0 <= k < |ys| && ys[k] == xs[0];
        assert j > 0 && ys[1..][j - 1] == x;
      }
      IncreasingSubsetIsSubsequence(rest, ys[1..]);
    }
  }

  /** At most one of the queues is in use; both are in order and within the cursors. */
  lemma QueuesAreInOrder(ops: seq<Op>)
    requires Run(ops).Some?
    ensures var s := Run(ops).value;
            && (s.added == [] || s.removed == [])
            && Increasing(s.added) && Increasing(s.removed)
            && (forall b | b in s.added :: Rank(s.nextCursorToRemove) <= At(b) < Rank(s.nextCursorToAdd))
            && (forall b | b in s.removed :: Rank(s.nextCursorToAdd) <= At(b) < Rank(s.nextCursorToRemove))
  {
    RunReconciles(ops);
    var adds, removes := Adds(ops), Removes(ops);
    HistoryBounds(adds);
    HistoryBounds(removes);
    FrontIsLowest(adds, Rank(NextCursor(removes)));
    FrontIsLowest(removes, Rank(NextCursor(adds)));
  }

  /**
   * Once nothing removed ahead of time is outstanding, the removed bundles are a subsequence of
   * the added ones, and every added bundle that was passed over could be skipped.
   */
  lemma NothingOutstandingMeansReceived(ops: seq<Op>)
    requires Run(ops).Some? && Run(ops).value.removed == []
    ensures IsSubsequence(Removes(ops), Adds(ops))
    ensures forall a | a in Adds(ops) && a !in Removes(ops) && At(a) < Rank(Run(ops).value.nextCursorToRemove) ::
              a.IsSkippable()
  {
    RunReconciles(ops);
    var adds, removes := Adds(ops), Removes(ops);
    FrontIsLowest(removes, Rank(NextCursor(adds)));
    forall r | r in removes ensures r in adds {
      assert At(r) < Rank(NextCursor(adds)) by {
        assert r !in AtOrPast(removes, Rank(NextCursor(adds)));
      }
    }
    IncreasingSubsetIsSubsequence(removes, adds);
  }

  // ----- What may be skipped, and why operations fail -----

  /** The bundle holds a protected or tracked message, or one with a grant. */
  predicate MustBeExecuted(b: MessageBundle) {
    exists m | m in b.messages :: m.kind == Protected || m.kind == Tracked || m.grant != 0
  }

  lemma SkippableExactly(b: MessageBundle)
    ensures b.IsSkippable() <==> !MustBeExecuted(b)
  {
    if !MustBeExecuted(b) {
      forall m | m in b.messages ensures m.IsSkippable() {
        assert m.kind == Simple || m.kind == Bouncing;
      }
    }
  }

  /** In every run, a block never passes over an added bundle that must be executed. */
  lemma UnskippableIsRemoved(ops: seq<Op>, a: MessageBundle)
    requires Run(ops).Some? && a in Adds(ops) && At(a) < Rank(Run(ops).value.nextCursorToRemove)
    requires MustBeExecuted(a)
    ensures a in Removes(ops)
  {
    RunReconciles(ops);
    SkippableExactly(a);
  }

  /** Something was removed at the place of a bundle or after it. */
  ghost predicate RemovedUpTo(ops: seq<Op>, b: MessageBundle) {
    exists r :: r in Removes(ops) && At(r) >= At(b)
  }

  ghost predicate AddedUpTo(ops: seq<Op>, b: MessageBundle) {
    exists a :: a in Adds(ops) && At(a) >= At(b)
  }

  /** A bundle that must be executed waits before the given one. */
  ghost predicate MustWaitFor(ops: seq<Op>, r: MessageBundle) {
    exists a :: a in Adds(ops) && a !in Removes(ops) && At(a) < At(r) && MustBeExecuted(a)
  }

  lemma {:induction false} EndOfHistory(xs: seq<MessageBundle>, b: MessageBundle)
    requires IsHistory(xs)
    ensures b.Position().Below(NextCursor(xs)) <==> exists x :: x in xs && At(x) >= At(b)
  {
    HistoryBounds(xs);
    RankEmbedsTheOrder(b.Position(), NextCursor(xs));
    if xs != [] {
      assert xs[|xs| - 1] in xs;
    }
  }

  lemma SkippingFailsExactly(adds: seq<MessageBundle>, removes: seq<MessageBundle>, r: MessageBundle)
    requires Reconcilable(adds, removes) && At(r) >= Rank(NextCursor(removes))
    ensures SkipBelow(AtOrPast(adds, Rank(NextCursor(removes))), r.Position()).None? <==>
            exists a :: a in adds && a !in removes && At(a) < At(r) && MustBeExecuted(a)
  {
    var place := Rank(NextCursor(removes));
    HistoryBounds(removes);
    AtOrPastMembers(adds, place);
    AtOrPastIncreasing(adds, place);
    SkipBelowIsAtOrPast(AtOrPast(adds, place), r.Position());
    forall a | a in adds ensures a.IsSkippable() <==> !MustBeExecuted(a) {
      SkippableExactly(a);
    }
  }

  /** The bundle in front after the skipping is another one exactly if something else was added there or later. */
  lemma FrontIsAnotherExactly(adds: seq<MessageBundle>, removes: seq<MessageBundle>, r: MessageBundle)
    requires Reconcilable(adds, removes) && At(r) >= Rank(NextCursor(removes))
    requires SkipBelow(AtOrPast(adds, Rank(NextCursor(removes))), r.Position()).Some?
    ensures var rest := SkipBelow(AtOrPast(adds, Rank(NextCursor(removes))), r.Position()).value;
            rest != [] && rest[0] != r <==> r !in adds && r.Position().Below(NextCursor(adds))
  {
    var place := Rank(NextCursor(removes));
    AtOrPastIncreasing(adds, place);
    SkipBelowIsAtOrPast(AtOrPast(adds, place), r.Position());
    AtOrPastAgain(adds, place, At(r));
    HistoryBounds(adds);
    RankEmbedsTheOrder(r.Position(), NextCursor(adds));
    RestDecides(adds, r, Rank(NextCursor(adds)));
  }

  /**
   * Exactly why a removal fails after any run: something at its place or after it was removed, a
   * bundle that must be executed waits before it, or another one was added there or later.
   */
  lemma RemoveErrorsExactly(ops: seq<Op>, r: MessageBundle)
    requires Run(ops).Some?
    ensures var result := Remove(Run(ops).value, r);
            var late, blocked, other :=
              RemovedUpTo(ops, r), MustWaitFor(ops, r), r !in Adds(ops) && AddedUpTo(ops, r);
            && (result == Err(IncorrectOrder) <==> late)
            && (result == Err(UnskippableBundle) <==> !late && blocked)
            && (result == Err(UnexpectedBundle) <==> !late && !blocked && other)
            && (result == Err(ArithmeticOverflow) <==>
                  !late && !blocked && !other && r.transactionIndex == U32_MAX)
            && (result.Ok? <==> !late && !blocked && !other && r.transactionIndex < U32_MAX)
  {
    RunReconciles(ops);
    var adds, removes := Adds(ops), Removes(ops);
    EndOfHistory(removes, r);
    EndOfHistory(adds, r);
    RankEmbedsTheOrder(r.Position(), NextCursor(removes));
    if !RemovedUpTo(ops, r) {
      SkippingFailsExactly(adds, removes, r);
      if SkipBelow(Run(ops).value.added, r.Position()).Some? {
        FrontIsAnotherExactly(adds, removes, r);
      }
    }
  }

  /** Something else was removed ahead of time at the place of the bundle or before it. */
  ghost predicate AnotherAnticipated(ops: seq<Op>, a: MessageBundle) {
    exists r :: r in Removes(ops) && r !in Adds(ops) && At(r) <= At(a) && r != a
  }

  lemma AdditionFitsExactly(adds: seq<MessageBundle>, removes: seq<MessageBundle>, a: MessageBundle)
    requires Reconcilable(adds, removes) && At(a) >= Rank(NextCursor(adds))
    ensures AddFits(AtOrPast(removes, Rank(NextCursor(adds))), a) <==>
              && !(exists r :: r in removes && r !in adds && At(r) <= At(a) && r != a)
              && !(a !in removes && MustBeExecuted(a) && exists r :: r in removes && At(r) >= At(a))
  {
    var place := Rank(NextCursor(adds));
    HistoryBounds(adds);
    HistoryBounds(removes);
    SkippableExactly(a);
    EndOfHistory(removes, a);
    RankEmbedsTheOrder(a.Position(), NextCursor(removes));
    FrontDecidesAddition(removes, place, a, Rank(NextCursor(removes)));
    forall r | r in removes ensures r !in adds <==> At(r) >= place {
      assert At(r) < place ==> r in adds;
    }
  }

  lemma UnexpectedExactly(s: Inbox, a: MessageBundle)
    requires !a.Position().Below(s.nextCursorToAdd)
    ensures Add(s, a) == Err(UnexpectedBundle) <==> !AddFits(s.removed, a)
    ensures Add(s, a) == Err(ArithmeticOverflow) <==> AddFits(s.removed, a) && a.transactionIndex == U32_MAX
  {
    if s.removed != [] {
      RankEmbedsTheOrder(a.Position(), s.removed[0].Position());
    }
  }

  /**
   * Exactly why an addition fails after any run: something at its place or after it was added, or
   * the block removed another bundle there or before, or passed over it although it must be executed.
   */
  lemma AddErrorsExactly(ops: seq<Op>, a: MessageBundle)
    requires Run(ops).Some?
    ensures var result := Add(Run(ops).value, a);
            var late := AddedUpTo(ops, a);
            var other := || AnotherAnticipated(ops, a)
                         || (a !in Removes(ops) && MustBeExecuted(a) && RemovedUpTo(ops, a));
            && (result == Err(IncorrectOrder) <==> late)
            && (result == Err(UnexpectedBundle) <==> !late && other)
            && (result == Err(ArithmeticOverflow) <==> !late && !other && a.transactionIndex == U32_MAX)
            && (result.Ok? <==> !late && !other && a.transactionIndex < U32_MAX)
  {
    RunReconciles(ops);
    var adds, removes := Adds(ops), Removes(ops);
    EndOfHistory(adds, a);
    RankEmbedsTheOrder(a.Position(), NextCursor(adds));
    if !AddedUpTo(ops, a) {
      AdditionFitsExactly(adds, removes, a);
      UnexpectedExactly(Run(ops).value, a);
    }
  }

  /** The height of the next block to receive from the origin; `None` on overflow. */
  function NextBlockHeightToReceive(s: Inbox): Option<u64> {
    if s.nextCursorToAdd.index == 0 then Some(s.nextCursorToAdd.height)
    else if s.nextCursorToAdd.height < U64_MAX then Some(s.nextCursorToAdd.height + 1)
    else None
  }

  /** It is the least height above all bundles added so far. */
  lemma NextHeightIsAboveAllAdded(ops: seq<Op>)
    requires Run(ops).Some? && NextBlockHeightToReceive(Run(ops).value).Some?
    ensures var h := NextBlockHeightToReceive(Run(ops).value).value;
            && (forall a | a in Adds(ops) :: a.height < h)
            && (h > 0 ==> exists a :: a in Adds(ops) && a.height + 1 == h)
  {
    RunReconciles(ops);
    var adds := Adds(ops);
    HistoryBounds(adds);
    if adds != [] {
      var last := adds[|adds| - 1];
      assert last in adds;
      forall a | a in adds ensures a.height <= last.height {
        assert At(a) <= At(last);
      }
    }
  }
}
