/** The messages sent by a block: how they are grouped, numbered, looked up and received. */
module Messages {
  import opened Basics
  import opened Inboxes

  type ChainId = nat

  datatype Destination = Recipient(chain: ChainId) | Subscribers(channel: nat)

  datatype Medium = Direct | Channel(application: GenericApplicationId, name: nat)

  datatype OutgoingMessage = OutgoingMessage(
    destination: Destination,
    authenticatedSigner: Option<nat>,
    grant: u128,
    refundGrantTo: Option<nat>,
    kind: MessageKind,
    message: Message)
  {
    predicate HasDestination(medium: Medium, recipient: ChainId) {
      match (destination, medium)
      case (Recipient(id), Direct) => id == recipient
      case (Subscribers(channel), Channel(application, name)) => application == message.Application() && name == channel
      case _ => false
    }

    /** The message without its destination, numbered within the block. */
    function IntoPosted(index: u32): PostedMessage {
      PostedMessage(authenticatedSigner, grant, refundGrantTo, kind, index, message)
    }
  }

  datatype ExecutedBlock = ExecutedBlock(
    chainId: ChainId,
    height: u64,
    timestamp: u64,
    epoch: nat,
    incomingBundles: nat,
    messages: seq<seq<OutgoingMessage>>)

  datatype MessageId = MessageId(chainId: ChainId, height: u64, index: u32)

  /** All messages of a list of transactions, in order. */
  function Flat(transactions: seq<seq<OutgoingMessage>>): seq<OutgoingMessage> {
    if transactions == [] then []
    else Flat(transactions[..|transactions| - 1]) + transactions[|transactions| - 1]
  }

  /** Fewer than 2^32 messages and transactions, so that every index fits. */
  predicate Numbered(transactions: seq<seq<OutgoingMessage>>) {
    |transactions| <= U32_MAX && |Flat(transactions)| <= U32_MAX
  }

  lemma {:induction false} FlatPrefix(transactions: seq<seq<OutgoingMessage>>, n: nat)
    requires n <= |transactions|
    ensures Flat(transactions[..n]) <= Flat(transactions)
  {
    if n == |transactions| {
      assert transactions[..n] == transactions;
    } else {
      var before := transactions[..|transactions| - 1];
      FlatPrefix(before, n);
      assert before[..n] == transactions[..n];
    }
  }

  lemma FlatStep(transactions: seq<seq<OutgoingMessage>>, n: nat)
    requires n < |transactions|
    ensures Flat(transactions[..n + 1]) == Flat(transactions[..n]) + transactions[n]
    ensures |Flat(transactions[..n])| + |transactions[n]| <= |Flat(transactions)|
  {
    assert transactions[..n + 1][..n] == transactions[..n];
    FlatPrefix(transactions, n + 1);
  }

  lemma InPrefix(whole: seq<OutgoingMessage>, head: seq<OutgoingMessage>, tail: seq<OutgoingMessage>, j: nat)
    requires head + tail <= whole && j < |tail|
    ensures whole[|head| + j] == tail[j]
  {
    assert (head + tail)[|head| + j] == tail[j];
  }

  /** A transaction's messages start where those of the earlier transactions end. */
  lemma FlatAt(transactions: seq<seq<OutgoingMessage>>, n: nat, j: nat)
    requires n < |transactions| && j < |transactions[n]|
    ensures |Flat(transactions[..n])| + j < |Flat(transactions)|
    ensures Flat(transactions)[|Flat(transactions[..n])| + j] == transactions[n][j]
  {
    FlatStep(transactions, n);
    FlatPrefix(transactions, n + 1);
    InPrefix(Flat(transactions), Flat(transactions[..n]), transactions[n], j);
  }

  /** The messages with a destination, posted with consecutive numbers. */
  function Posted(messages: seq<OutgoingMessage>, medium: Medium, recipient: ChainId, first: nat): seq<PostedMessage>
    requires first + |messages| <= U32_MAX
  {
    if messages == [] then []
    else
      var n := |messages| - 1;
      Posted(messages[..n], medium, recipient, first)
      + if messages[n].HasDestination(medium, recipient) then [messages[n].IntoPosted(first + n)] else []
  }

  /** Exactly the messages for the destination are posted, once each, in order, under their own number. */
  lemma {:induction false} PostedExactly(messages: seq<OutgoingMessage>, medium: Medium, recipient: ChainId, first: nat)
    requires first + |messages| <= U32_MAX
    ensures var posted := Posted(messages, medium, recipient, first);
            && (forall k, j | 0 <= k < j < |posted| :: posted[k].index < posted[j].index)
            && (forall p | p in posted :: first <= p.index < first + |messages|)
            && (forall p :: p in posted <==>
                  && first <= p.index < first + |messages|
                  && messages[p.index - first].HasDestination(medium, recipient)
                  && p == messages[p.index - first].IntoPosted(p.index))
  {
    if messages != [] {
      var n := |messages| - 1;
      var before, posted := Posted(messages[..n], medium, recipient, first), Posted(messages, medium, recipient, first);
      PostedExactly(messages[..n], medium, recipient, first);
      forall k | 0 <= k < |before| ensures before[k].index < first + n {
        assert before[k] in before;
      }
    }
  }

  lemma PostedMember(messages: seq<OutgoingMessage>, medium: Medium, recipient: ChainId, p: PostedMessage)
    requires |messages| <= U32_MAX
    ensures p in Posted(messages, medium, recipient, 0) <==>
            && p.index < |messages|
            && messages[p.index].HasDestination(medium, recipient)
            && p == messages[p.index].IntoPosted(p.index)
  {
    PostedExactly(messages, medium, recipient, 0);
  }

  lemma {:induction false} PostedJoined(xs: seq<OutgoingMessage>, ys: seq<OutgoingMessage>, medium: Medium,
                                        recipient: ChainId, first: nat)
    requires first + |xs| + |ys| <= U32_MAX
    ensures Posted(xs + ys, medium, recipient, first)
            == Posted(xs, medium, recipient, first) + Posted(ys, medium, recipient, first + |xs|)
  {
    if ys == [] {
      assert xs + ys == xs;
    } else {
      var n := |ys| - 1;
      PostedJoined(xs, ys[..n], medium, recipient, first);
      assert (xs + ys)[..|xs + ys| - 1] == xs + ys[..n];
    }
  }

  /** The bundle sent by one transaction. */
  function BundleOf(block: ExecutedBlock, medium: Medium, recipient: ChainId, hash: nat, n: nat): MessageBundle
    requires Numbered(block.messages) && n < |block.messages|
  {
    FlatStep(block.messages, n);
    MessageBundle(block.height, block.timestamp, hash, n,
                  Posted(block.messages[n], medium, recipient, |Flat(block.messages[..n])|))
  }

  /** The bundles sent by the first transactions, leaving out those without messages. */
  function BundlesFor(block: ExecutedBlock, medium: Medium, recipient: ChainId, hash: nat, n: nat): seq<MessageBundle>
    requires Numbered(block.messages) && n <= |block.messages|
  {
    if n == 0 then []
    else
      var bundle := BundleOf(block, medium, recipient, hash, n - 1);
      BundlesFor(block, medium, recipient, hash, n - 1) + if bundle.messages == [] then [] else [bundle]
  }

  function AllPosted(bundles: seq<MessageBundle>): seq<PostedMessage> {
    if bundles == [] then []
    else AllPosted(bundles[..|bundles| - 1]) + bundles[|bundles| - 1].messages
  }

  /** Together, the bundles hold exactly the messages of the block for the destination, in order. */
  lemma {:induction false} BundlesHoldTheMessages(block: ExecutedBlock, medium: Medium, recipient: ChainId, hash: nat,
                                                  n: nat)
    requires Numbered(block.messages) && n <= |block.messages|
    ensures |Flat(block.messages[..n])| <= U32_MAX
    ensures AllPosted(BundlesFor(block, medium, recipient, hash, n))
            == Posted(Flat(block.messages[..n]), medium, recipient, 0)
  {
    FlatPrefix(block.messages, n);
    if n > 0 {
      BundlesHoldTheMessages(block, medium, recipient, hash, n - 1);
      FlatStep(block.messages, n - 1);
      PostedJoined(Flat(block.messages[..n - 1]), block.messages[n - 1], medium, recipient, 0);
      var before, bundle := BundlesFor(block, medium, recipient, hash, n - 1),
          BundleOf(block, medium, recipient, hash, n - 1);
      if bundle.messages == [] {
        assert before + [] == before;
      } else {
        assert (before + [bundle])[..|before|] == before;
      }
    }
  }

  lemma IncreasingAppend(before: seq<MessageBundle>, last: MessageBundle)
    requires Increasing(before) && forall b | b in before :: At(b) < At(last)
    ensures Increasing(before + [last])
  {
    var bundles := before + [last];
    forall i, j | 0 <= i < j < |bundles| ensures At(bundles[i]) < At(bundles[j]) {
      assert bundles[i] == before[i] && before[i] in before;
    }
  }

  predicate WithinBlock(bundles: seq<MessageBundle>, height: u64, n: nat) {
    forall b | b in bundles :: b.height == height && b.transactionIndex < n && b.messages != []
  }

  lemma OneMoreBundle(before: seq<MessageBundle>, last: MessageBundle)
    requires Increasing(before) && WithinBlock(before, last.height, last.transactionIndex) && last.messages != []
    ensures Increasing(before + [last]) && WithinBlock(before + [last], last.height, last.transactionIndex + 1)
  {
    forall b | b in before ensures At(b) < At(last) {
      RankEmbedsTheOrder(b.Position(), last.Position());
    }
    IncreasingAppend(before, last);
  }

  /** The bundles are never empty, and their cursors strictly increase within the height of the block. */
  lemma {:induction false} BundlesAreInOrder(block: ExecutedBlock, medium: Medium, recipient: ChainId, hash: nat,
                                             n: nat)
    requires Numbered(block.messages) && n <= |block.messages|
    ensures Increasing(BundlesFor(block, medium, recipient, hash, n))
    ensures WithinBlock(BundlesFor(block, medium, recipient, hash, n), block.height, n)
  {
    if n > 0 {
      BundlesAreInOrder(block, medium, recipient, hash, n - 1);
      var before, bundle := BundlesFor(block, medium, recipient, hash, n - 1),
          BundleOf(block, medium, recipient, hash, n - 1);
      if bundle.messages == [] {
        assert before + [] == before;
      } else {
        OneMoreBundle(before, bundle);
      }
    }
  }

  ghost predicate Sent(block: ExecutedBlock, bundles: seq<MessageBundle>, sent: seq<(nat, MessageBundle)>) {
    |sent| == |bundles| && forall i | 0 <= i < |sent| :: sent[i] == (block.epoch, bundles[i])
  }

  /** The messages of one transaction for a recipient, numbered from an index. */
  method PostMessages(transaction: seq<OutgoingMessage>, medium: Medium, recipient: ChainId, index: nat)
    returns (messages: seq<PostedMessage>)
    requires index + |transaction| <= U32_MAX
    ensures messages == Posted(transaction, medium, recipient, index)
  {
    messages := [];
    for j := 0 to |transaction|
      invariant messages == Posted(transaction[..j], medium, recipient, index)
    {
      assert transaction[..j + 1][..j] == transaction[..j];
      if transaction[j].HasDestination(medium, recipient) {
        messages := messages + [transaction[j].IntoPosted(index + j)];
      }
    }
    assert transaction[..|transaction|] == transaction;
  }

  /** The bundles of a block sent to a recipient, with the epoch of the block. */
  method MessageBundlesFor(block: ExecutedBlock, medium: Medium, recipient: ChainId, hash: nat)
    returns (sent: seq<(nat, MessageBundle)>)
    requires Numbered(block.messages)
    ensures Sent(block, BundlesFor(block, medium, recipient, hash, |block.messages|), sent)
    ensures forall x | x in sent :: x.0 == block.epoch
  {
    var index := 0;
    sent := [];
    for n := 0 to |block.messages|
      invariant index == |Flat(block.messages[..n])|
      invariant Sent(block, BundlesFor(block, medium, recipient, hash, n), sent)
    {
      var transaction := block.messages[n];
      FlatStep(block.messages, n);
      var messages := PostMessages(transaction, medium, recipient, index);
      if messages != [] {
        var bundle := MessageBundle(block.height, block.timestamp, hash, n, messages);
        sent := sent + [(block.epoch, bundle)];
      }
      index := index + |transaction|;
    }
  }

  // ----- Looking messages up -----

  /** The message with an identifier, if it belongs to this block. */
  function Lookup(block: ExecutedBlock, id: MessageId): Option<OutgoingMessage> {
    if block.chainId == id.chainId && block.height == id.height && id.index < |Flat(block.messages)|
    then Some(Flat(block.messages)[id.index])
    else None
  }

  method MessageById(block: ExecutedBlock, id: MessageId) returns (r: Option<OutgoingMessage>)
    ensures r == Lookup(block, id)
    ensures r.Some? <==>
            id.chainId == block.chainId && id.height == block.height && id.index < |Flat(block.messages)|
    ensures r.Some? ==> r.value == Flat(block.messages)[id.index]
  {
    if block.chainId != id.chainId || block.height != id.height {
      return None;
    }
    var index: nat := id.index;
    for n := 0 to |block.messages|
      invariant id.index == |Flat(block.messages[..n])| + index
    {
      var messages := block.messages[n];
      if index < |messages| {
        FlatAt(block.messages, n, index);
        return Some(messages[index]);
      }
      FlatStep(block.messages, n);
      index := index - |messages|;
    }
    assert block.messages[..|block.messages|] == block.messages;
    return None;
  }

  /** The identifier of a message created by an operation; operations follow the incoming bundles. */
  function MessageIdForOperation(block: ExecutedBlock, operation: nat, message: u32): Option<MessageId> {
    var n := block.incomingBundles + operation;
    if n >= |block.messages| || |block.messages[n]| > U32_MAX || message >= |block.messages[n]| then None
    else
      var first := |Flat(block.messages[..n])|;
      if first + message > U32_MAX then None else Some(MessageId(block.chainId, block.height, first + message))
  }

  /** The identifier leads back to the message; it exists for every message of every operation. */
  lemma OperationMessagesAreFound(block: ExecutedBlock, operation: nat, message: u32)
    ensures var n := block.incomingBundles + operation;
            match MessageIdForOperation(block, operation, message)
            case Some(id) => && n < |block.messages| && message < |block.messages[n]|
                             && Lookup(block, id) == Some(block.messages[n][message])
            case None => Numbered(block.messages) ==> n >= |block.messages| || message >= |block.messages[n]|
  {
    var n := block.incomingBundles + operation;
    if n < |block.messages| && message < |block.messages[n]| {
      FlatAt(block.messages, n, message);
      FlatStep(block.messages, n);
    }
  }

  /** A posted message is found under its number, in whatever bundle it was sent. */
  lemma PostedMessagesAreFound(block: ExecutedBlock, medium: Medium, recipient: ChainId, hash: nat, p: PostedMessage)
    requires Numbered(block.messages)
    ensures p in AllPosted(BundlesFor(block, medium, recipient, hash, |block.messages|)) <==>
            var m := Lookup(block, MessageId(block.chainId, block.height, p.index));
            m.Some? && m.value.HasDestination(medium, recipient) && p == m.value.IntoPosted(p.index)
  {
    BundlesHoldTheMessages(block, medium, recipient, hash, |block.messages|);
    assert block.messages[..|block.messages|] == block.messages;
    PostedMember(Flat(block.messages), medium, recipient, p);
  }

  /**
   * Exactly what is sent over a medium: the messages of the block to the recipient, or to the channel
   * of that name of the application they belong to, with signer, grant, refund account, kind and content.
   */
  lemma BundlesHoldExactly(block: ExecutedBlock, medium: Medium, recipient: ChainId, hash: nat, p: PostedMessage)
    requires Numbered(block.messages)
    ensures p in AllPosted(BundlesFor(block, medium, recipient, hash, |block.messages|)) <==>
              && p.index < |Flat(block.messages)|
              && var m := Flat(block.messages)[p.index];
              && p.authenticatedSigner == m.authenticatedSigner && p.grant == m.grant
              && p.refundGrantTo == m.refundGrantTo && p.kind == m.kind && p.message == m.message
              && match medium
                 case Direct => m.destination == Recipient(recipient)
                 case Channel(application, name) =>
                   && m.destination == Subscribers(name)
                   && if m.message.SystemMessage? then application == System
                      else application == User(m.message.applicationId)
  {
    PostedMessagesAreFound(block, medium, recipient, hash, p);
  }

  /** A bundle names the block it comes from, and holds messages of its own transaction only. */
  lemma {:induction false} BundlesNameTheirTransaction(block: ExecutedBlock, medium: Medium, recipient: ChainId,
                                                       hash: nat, n: nat, b: MessageBundle)
    requires Numbered(block.messages) && n <= |block.messages|
    requires b in BundlesFor(block, medium, recipient, hash, n)
    ensures b.height == block.height && b.timestamp == block.timestamp && b.certificateHash == hash
    ensures b.transactionIndex < n
    ensures var first := |Flat(block.messages[..b.transactionIndex])|;
            forall p | p in b.messages :: first <= p.index < first + |block.messages[b.transactionIndex]|
  {
    var last := BundleOf(block, medium, recipient, hash, n - 1);
    if b == last {
      FlatStep(block.messages, n - 1);
      PostedExactly(block.messages[n - 1], medium, recipient, |Flat(block.messages[..n - 1])|);
    } else {
      BundlesNameTheirTransaction(block, medium, recipient, hash, n - 1, b);
    }
  }

  // ----- Receiving the bundles -----

  function AddAll(s: Inbox, bundles: seq<MessageBundle>): Result<Inbox, InboxError> {
    if bundles == [] then Ok(s)
    else
      match AddAll(s, bundles[..|bundles| - 1])
      case Err(e) => Err(e)
      case Ok(t) =>
        match Add(t, bundles[|bundles| - 1])
        case Err(e) => Err(e)
        case Ok(added) => Ok(added.0)
  }

  lemma NextIsAccepted(s: Inbox, b: MessageBundle)
    requires s.removed == [] && Rank(s.nextCursorToAdd) <= At(b) && b.Position().TryAddOne().Some?
    ensures Add(s, b) == Ok((s.(nextCursorToAdd := b.Position().TryAddOne().value, added := s.added + [b]), true))
  {
    RankEmbedsTheOrder(b.Position(), s.nextCursorToAdd);
  }

  /** The inbox after adding bundles in order: they are all waiting, and the next one must come after them. */
  function WithAll(s: Inbox, bundles: seq<MessageBundle>): Inbox {
    s.(added := s.added + bundles, nextCursorToAdd := if bundles == [] then s.nextCursorToAdd else NextCursor(bundles))
  }

  lemma PlaceOfNext(s: Inbox, before: seq<MessageBundle>, last: MessageBundle)
    requires IsHistory(before + [last]) && Rank(s.nextCursorToAdd) <= At(last)
    ensures Rank(WithAll(s, before).nextCursorToAdd) <= At(last)
    ensures last.Position().TryAddOne().Some?
    ensures IsHistory(before)
  {
    var bundles := before + [last];
    assert bundles[|before|] == last && last in bundles;
    assert forall i | 0 <= i < |before| :: bundles[i] == before[i];
    assert forall b | b in before :: b in bundles;
    if before != [] {
      var previous := bundles[|before| - 1];
      assert previous in bundles && At(previous) < At(last);
      RankEmbedsTheOrder(previous.Position(), last.Position());
    }
  }

  lemma WithOneMore(s: Inbox, before: seq<MessageBundle>, last: MessageBundle)
    requires s.removed == [] && last.Position().TryAddOne().Some?
    requires Rank(WithAll(s, before).nextCursorToAdd) <= At(last)
    ensures Add(WithAll(s, before), last) == Ok((WithAll(s, before + [last]), true))
  {
    NextIsAccepted(WithAll(s, before), last);
    assert s.added + before + [last] == s.added + (before + [last]);
  }

  lemma {:induction false} InOrderIsAccepted(s: Inbox, bundles: seq<MessageBundle>)
    requires s.removed == [] && IsHistory(bundles)
    requires forall b | b in bundles :: Rank(s.nextCursorToAdd) <= At(b)
    ensures AddAll(s, bundles) == Ok(WithAll(s, bundles))
  {
    if bundles == [] {
      assert s.added + [] == s.added;
    } else {
      var before, last := bundles[..|bundles| - 1], bundles[|bundles| - 1];
      assert bundles == before + [last];
      assert last in bundles && forall b | b in before :: b in bundles;
      PlaceOfNext(s, before, last);
      InOrderIsAccepted(s, before);
      WithOneMore(s, before, last);
    }
  }

  /** An inbox that expects this height and has nothing removed ahead of time accepts all bundles of a block. */
  lemma BundlesAreAccepted(s: Inbox, block: ExecutedBlock, medium: Medium, recipient: ChainId, hash: nat)
    requires Numbered(block.messages)
    requires s.removed == [] && Rank(s.nextCursorToAdd) <= Rank(Cursor(block.height, 0))
    ensures var bundles := BundlesFor(block, medium, recipient, hash, |block.messages|);
            AddAll(s, bundles) == Ok(WithAll(s, bundles))
  {
    var bundles := BundlesFor(block, medium, recipient, hash, |block.messages|);
    BundlesAreInOrder(block, medium, recipient, hash, |block.messages|);
    InOrderIsAccepted(s, bundles);
  }
}
