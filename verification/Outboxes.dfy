/**
 * The outboxes of a chain, one queue of block heights per target, and the counters that
 * summarise them: how many outboxes still hold each height.
 */
module Outboxes {
  import opened Basics

  type Target = nat
  type BlockHeight = u64

  datatype Outbox = Outbox(nextHeightToSchedule: BlockHeight, queue: seq<BlockHeight>)

  const EMPTY_OUTBOX := Outbox(0, [])

  predicate InOrder(b: Outbox) {
    && (forall i, j | 0 <= i < j < |b.queue| :: b.queue[i] < b.queue[j])
    && (forall h | h in b.queue :: h < b.nextHeightToSchedule)
  }

  function OutboxOf(outboxes: map<Target, Outbox>, t: Target): Outbox {
    if t in outboxes then outboxes[t] else EMPTY_OUTBOX
  }

  /** The targets whose outbox holds a height. */
  function Holders(outboxes: map<Target, Outbox>, h: BlockHeight): set<Target> {
    set t | t in outboxes && h in outboxes[t].queue
  }

  /** The counters hold, for every height in flight, the number of outboxes that contain it. */
  ghost predicate Counts(outboxes: map<Target, Outbox>, counters: map<BlockHeight, nat>) {
    && (forall h | h in counters :: counters[h] > 0)
    && (forall h: BlockHeight :: CounterOf(counters, h) == |Holders(outboxes, h)|)
  }

  function CounterOf(counters: map<BlockHeight, nat>, h: BlockHeight): nat {
    if h in counters then counters[h] else 0
  }

  function Above(queue: seq<BlockHeight>, height: BlockHeight): seq<BlockHeight> {
    if queue == [] then [] else (if queue[0] > height then [queue[0]] else []) + Above(queue[1..], height)
  }

  lemma {:induction false} AboveMembers(queue: seq<BlockHeight>, height: BlockHeight)
    ensures forall h :: h in Above(queue, height) <==> h in queue && h > height
  {
    if queue != [] {
      AboveMembers(queue[1..], height);
    }
  }

  lemma {:induction false} AboveAll(queue: seq<BlockHeight>, height: BlockHeight)
    requires forall h | h in queue :: h > height
    ensures Above(queue, height) == queue
  {
    if queue != [] {
      assert queue[0] in queue && forall h | h in queue[1..] :: h in queue;
      AboveAll(queue[1..], height);
    }
  }

  /** One more outbox holds a height. */
  lemma HoldersGrow(outboxes: map<Target, Outbox>, t: Target, b: Outbox, height: BlockHeight)
    requires height !in OutboxOf(outboxes, t).queue
    requires forall h :: h in b.queue <==> h in OutboxOf(outboxes, t).queue || h == height
    ensures forall h: BlockHeight ::
              |Holders(outboxes[t := b], h)| == |Holders(outboxes, h)| + if h == height then 1 else 0
  {
    forall h: BlockHeight
      ensures |Holders(outboxes[t := b], h)| == |Holders(outboxes, h)| + if h == height then 1 else 0
    {
      assert Holders(outboxes[t := b], h) == Holders(outboxes, h) + if h == height then {t} else {};
    }
  }

  /** Some heights leave one outbox. */
  lemma HoldersShrink(outboxes: map<Target, Outbox>, t: Target, b: Outbox)
    requires forall h | h in b.queue :: h in OutboxOf(outboxes, t).queue
    ensures forall h: BlockHeight ::
              |Holders(outboxes, h)|
              == |Holders(outboxes[t := b], h)| + if h in OutboxOf(outboxes, t).queue && h !in b.queue then 1 else 0
  {
    forall h: BlockHeight
      ensures |Holders(outboxes, h)|
              == |Holders(outboxes[t := b], h)| + if h in OutboxOf(outboxes, t).queue && h !in b.queue then 1 else 0
    {
      assert Holders(outboxes, h) == Holders(outboxes[t := b], h)
                                     + if h in OutboxOf(outboxes, t).queue && h !in b.queue then {t} else {};
    }
  }

  /** The outboxes after scheduling a block for a target; `None` if the height is too high. */
  function Scheduled(outboxes: map<Target, Outbox>, t: Target, height: BlockHeight): Option<map<Target, Outbox>> {
    var outbox := OutboxOf(outboxes, t);
    if height < outbox.nextHeightToSchedule then Some(outboxes[t := outbox])
    else if height == U64_MAX then None
    else Some(outboxes[t := Outbox(height + 1, outbox.queue + [height])])
  }

  /** Whether a height would be added to the queue of a target. */
  predicate IsNew(outboxes: map<Target, Outbox>, t: Target, height: BlockHeight) {
    height >= OutboxOf(outboxes, t).nextHeightToSchedule
  }

  /** Scheduling a block for several targets, as for the recipients of its messages. */
  function ScheduledForAll(outboxes: map<Target, Outbox>, targets: seq<Target>, height: BlockHeight)
    : Option<map<Target, Outbox>>
  {
    if targets == [] then Some(outboxes)
    else
      var before := ScheduledForAll(outboxes, targets[..|targets| - 1], height);
      if before.None? then None else Scheduled(before.value, targets[|targets| - 1], height)
  }

  /** Scheduling several blocks for one target, as for a new subscriber of a channel. */
  function BackFilled(outboxes: map<Target, Outbox>, t: Target, heights: seq<BlockHeight>)
    : Option<map<Target, Outbox>>
  {
    if heights == [] then Some(outboxes)
    else
      var before := BackFilled(outboxes, t, heights[..|heights| - 1]);
      if before.None? then None else Scheduled(before.value, t, heights[|heights| - 1])
  }

  /** Exactly the targets to which the height is new get it, and nobody else is touched. */
  lemma {:induction false} ScheduledForAllExactly(outboxes: map<Target, Outbox>, targets: seq<Target>,
                                                  height: BlockHeight)
    ensures var r := ScheduledForAll(outboxes, targets, height);
            && (r.Some? <==> targets == [] || height < U64_MAX)
            && (r.Some? ==> forall t ::
                  OutboxOf(r.value, t) == if t in targets && IsNew(outboxes, t, height)
                                          then Outbox(height + 1, OutboxOf(outboxes, t).queue + [height])
                                          else OutboxOf(outboxes, t))
  {
    if targets != [] {
      var before, last := targets[..|targets| - 1], targets[|targets| - 1];
      ScheduledForAllExactly(outboxes, before, height);
      assert targets == before + [last];
      if height < U64_MAX {
        var m := ScheduledForAll(outboxes, before, height).value;
        ScheduledExactly(m, last, height);
      } else if before == [] {
        ScheduledExactly(outboxes, last, height);
      }
    }
  }

  lemma ScheduledExactly(outboxes: map<Target, Outbox>, t: Target, height: BlockHeight)
    ensures var r := Scheduled(outboxes, t, height);
            && (r.None? <==> height == U64_MAX)
            && (r.Some? ==> forall u ::
                  OutboxOf(r.value, u) == if u == t && IsNew(outboxes, t, height)
                                          then Outbox(height + 1, OutboxOf(outboxes, t).queue + [height])
                                          else OutboxOf(outboxes, u))
  {}

  /** A height in the list that the outbox does not remember, and that is above all those before it. */
  predicate IsRecord(heights: seq<BlockHeight>, outboxes: map<Target, Outbox>, t: Target, h: BlockHeight) {
    && h >= OutboxOf(outboxes, t).nextHeightToSchedule
    && exists i | 0 <= i < |heights| :: heights[i] == h && forall j | 0 <= j < i :: heights[j] < h
  }

  /** The next height to schedule is past the whole list, but not further than it has to be. */
  predicate IsPast(b: Outbox, heights: seq<BlockHeight>, b': Outbox) {
    && b.nextHeightToSchedule <= b'.nextHeightToSchedule
    && (forall h | h in heights :: h < b'.nextHeightToSchedule)
    && (b'.nextHeightToSchedule == b.nextHeightToSchedule
        || exists h | h in heights :: h + 1 == b'.nextHeightToSchedule)
  }

  lemma RecordsGrow(heights: seq<BlockHeight>, outboxes: map<Target, Outbox>, t: Target, last: BlockHeight, b': Outbox)
    requires IsPast(OutboxOf(outboxes, t), heights, b')
    ensures forall h: BlockHeight :: IsRecord(heights + [last], outboxes, t, h) <==>
              IsRecord(heights, outboxes, t, h) || (h == last && last >= b'.nextHeightToSchedule)
  {
    var all := heights + [last];
    forall h: BlockHeight
      ensures IsRecord(all, outboxes, t, h) <==>
              IsRecord(heights, outboxes, t, h) || (h == last && last >= b'.nextHeightToSchedule)
    {
      if IsRecord(heights, outboxes, t, h) {
        var i :| 0 <= i < |heights| && heights[i] == h && forall j | 0 <= j < i :: heights[j] < h;
        assert all[i] == h && forall j | 0 <= j < i :: all[j] == heights[j];
      } else if h == last && last >= b'.nextHeightToSchedule {
        assert all[|heights|] == h;
        assert forall j | 0 <= j < |heights| :: all[j] == heights[j] && heights[j] in heights;
      } else if IsRecord(all, outboxes, t, h) {
        var i :| 0 <= i < |all| && all[i] == h && forall j | 0 <= j < i :: all[j] < h;
        if i < |heights| {
          assert heights[i] == h && forall j | 0 <= j < i :: heights[j] == all[j];
        } else {
          forall x | x in heights ensures x < h {
            var j :| 0 <= j < |heights| && heights[j] == x;
            assert all[j] == x;
          }
        }
      }
    }
  }

  lemma PastGrows(b: Outbox, heights: seq<BlockHeight>, b': Outbox, last: BlockHeight, b'': Outbox)
    requires IsPast(b, heights, b')
    requires b''.nextHeightToSchedule == Max(b'.nextHeightToSchedule, last + 1)
    ensures IsPast(b, heights + [last], b'')
  {
    var all := heights + [last];
    assert forall h :: h in all <==> h in heights || h == last;
    if last >= b'.nextHeightToSchedule {
      assert last in all && last + 1 == b''.nextHeightToSchedule;
    } else if b'.nextHeightToSchedule != b.nextHeightToSchedule {
      var h :| h in heights && h + 1 == b'.nextHeightToSchedule;
      assert h in all;
    }
  }

  /** A new subscriber gets each earlier height once, unless a later one came first; others get nothing. */
  lemma {:induction false} BackFilledExactly(outboxes: map<Target, Outbox>, t: Target, heights: seq<BlockHeight>)
    ensures var r := BackFilled(outboxes, t, heights);
            && (r.Some? <==> U64_MAX !in heights)
            && (r.Some? ==>
                  && OutboxOf(outboxes, t).queue <= OutboxOf(r.value, t).queue
                  && IsPast(OutboxOf(outboxes, t), heights, OutboxOf(r.value, t))
                  && (forall h: BlockHeight :: h in OutboxOf(r.value, t).queue <==>
                        h in OutboxOf(outboxes, t).queue || IsRecord(heights, outboxes, t, h))
                  && (forall u | u != t :: OutboxOf(r.value, u) == OutboxOf(outboxes, u)))
  {
    if heights != [] {
      var before, last := heights[..|heights| - 1], heights[|heights| - 1];
      BackFilledExactly(outboxes, t, before);
      assert heights == before + [last];
      if U64_MAX !in before {
        var m := BackFilled(outboxes, t, before).value;
        ScheduledExactly(m, t, last);
        RecordsGrow(before, outboxes, t, last, OutboxOf(m, t));
        if last < U64_MAX {
          PastGrows(OutboxOf(outboxes, t), before, OutboxOf(m, t), last, OutboxOf(Scheduled(m, t, last).value, t));
        }
      }
    }
  }

  /** The outboxes after a target acknowledged everything up to a height. */
  function Acknowledged(outboxes: map<Target, Outbox>, t: Target, height: BlockHeight): map<Target, Outbox> {
    var outbox := OutboxOf(outboxes, t);
    var rest := Above(outbox.queue, height);
    if rest == [] && outbox.queue != [] then outboxes - {t}
    else outboxes[t := outbox.(queue := rest)]
  }

  /** Exactly the heights up to the acknowledged one leave the outbox of the target. */
  lemma AcknowledgedExactly(outboxes: map<Target, Outbox>, t: Target, height: BlockHeight)
    ensures var after := Acknowledged(outboxes, t, height);
            && (forall h :: h in OutboxOf(after, t).queue <==> h in OutboxOf(outboxes, t).queue && h > height)
            && (forall u | u != t :: OutboxOf(after, u) == OutboxOf(outboxes, u))
  {
    AboveMembers(OutboxOf(outboxes, t).queue, height);
  }

  class ChainOutboxes {
    var outboxes: map<Target, Outbox>
    var outboxCounters: map<BlockHeight, nat>

    ghost predicate Valid()
      reads this
    {
      && (forall t | t in outboxes :: InOrder(outboxes[t]))
      && Counts(outboxes, outboxCounters)
    }

    constructor ()
      ensures Valid() && outboxes == map[]
    {
      outboxes := map[];
      outboxCounters := map[];
      new;
      assert forall h: BlockHeight :: Holders(outboxes, h) == {};
    }

    /** Schedules a block for a target unless the outbox of the target remembers it or a later one. */
    method ScheduleMessage(t: Target, height: BlockHeight) returns (r: Option<bool>)
      requires Valid()
      modifies this
      ensures r.None? <==> Scheduled(old(outboxes), t, height).None?
      ensures r.Some? ==>
                && Valid() && Some(outboxes) == Scheduled(old(outboxes), t, height)
                && r.value == IsNew(old(outboxes), t, height)
                && r.value == (height !in OutboxOf(old(outboxes), t).queue && height in OutboxOf(outboxes, t).queue)
                && OutboxOf(outboxes, t).queue ==
                   OutboxOf(old(outboxes), t).queue + (if r.value then [height] else [])
                && (forall u | u != t :: OutboxOf(outboxes, u) == OutboxOf(old(outboxes), u))
      ensures r.None? <==> height == U64_MAX
    {
      var outbox := OutboxOf(outboxes, t);
      if height < outbox.nextHeightToSchedule {
        ghost var before := outboxes;
        outboxes := outboxes[t := outbox];
        assert forall h: BlockHeight :: Holders(outboxes, h) == Holders(before, h);
        return Some(false);
      }
      if height == U64_MAX {
        return None;
      }
      var outbox' := Outbox(height + 1, outbox.queue + [height]);
      OrderedAppend(outbox, height);
      HoldersGrow(outboxes, t, outbox', height);
      CountsGrow(outboxes, outboxCounters, t, outbox', height);
      outboxes := outboxes[t := outbox'];
      outboxCounters := outboxCounters[height := CounterOf(outboxCounters, height) + 1];
      return Some(true);
    }

    /** Updates the outboxes of all targets that a block has messages for. */
    method ScheduleForTargets(targets: seq<Target>, height: BlockHeight) returns (ok: bool)
      requires Valid()
      modifies this
      ensures ok <==> ScheduledForAll(old(outboxes), targets, height).Some?
      ensures ok ==> Valid() && Some(outboxes) == ScheduledForAll(old(outboxes), targets, height)
      ensures ok <==> targets == [] || height < U64_MAX
      ensures ok ==> forall t ::
                OutboxOf(outboxes, t).queue ==
                OutboxOf(old(outboxes), t).queue
                + if t in targets && IsNew(old(outboxes), t, height) then [height] else []
    {
      ScheduledForAllExactly(outboxes, targets, height);
      for i := 0 to |targets|
        invariant Valid() && Some(outboxes) == ScheduledForAll(old(outboxes), targets[..i], height)
      {
        assert targets[..i + 1][..i] == targets[..i];
        var r := ScheduleMessage(targets[i], height);
        if r.None? {
          FailedTargets(old(outboxes), targets, height, i + 1);
          return false;
        }
      }
      assert targets[..|targets|] == targets;
      return true;
    }

    /** Sends all earlier blocks of a channel to a new subscriber. */
    method BackFill(t: Target, heights: seq<BlockHeight>) returns (r: Option<bool>)
      requires Valid()
      modifies this
      ensures r.Some? <==> BackFilled(old(outboxes), t, heights).Some?
      ensures r.Some? ==>
                && Valid() && Some(outboxes) == BackFilled(old(outboxes), t, heights)
                && (r.value <==> |OutboxOf(outboxes, t).queue| > |OutboxOf(old(outboxes), t).queue|)
      ensures r.Some? <==> U64_MAX !in heights
      ensures r.Some? ==>
                && OutboxOf(old(outboxes), t).queue <= OutboxOf(outboxes, t).queue
                && (forall h: BlockHeight :: h in OutboxOf(outboxes, t).queue <==>
                      h in OutboxOf(old(outboxes), t).queue || IsRecord(heights, old(outboxes), t, h))
                && (forall u | u != t :: OutboxOf(outboxes, u) == OutboxOf(old(outboxes), u))
    {
      BackFilledExactly(outboxes, t, heights);
      var newEntries := false;
      for i := 0 to |heights|
        invariant Valid() && Some(outboxes) == BackFilled(old(outboxes), t, heights[..i])
        invariant |OutboxOf(outboxes, t).queue| >= |OutboxOf(old(outboxes), t).queue|
        invariant newEntries <==> |OutboxOf(outboxes, t).queue| > |OutboxOf(old(outboxes), t).queue|
      {
        assert heights[..i + 1][..i] == heights[..i];
        var scheduled := ScheduleMessage(t, heights[i]);
        if scheduled.None? {
          FailedHeights(old(outboxes), t, heights, i + 1);
          return None;
        }
        newEntries := newEntries || scheduled.value;
      }
      assert heights[..|heights|] == heights;
      return Some(newEntries);
    }

    /** Marks all messages to a target as received up to a height. */
    method MarkMessagesAsReceived(t: Target, height: BlockHeight) returns (changed: bool)
      requires Valid()
      modifies this
      ensures Valid() && outboxes == Acknowledged(old(outboxes), t, height)
      ensures forall h :: h in OutboxOf(outboxes, t).queue <==> h in OutboxOf(old(outboxes), t).queue && h > height
      ensures forall u | u != t :: OutboxOf(outboxes, u) == OutboxOf(old(outboxes), u)
      ensures changed <==> exists h :: h in OutboxOf(old(outboxes), t).queue && h <= height
    {
      var outbox := OutboxOf(outboxes, t);
      var queue, updates := PopUpTo(outbox.queue, height);
      AcknowledgedExactly(outboxes, t, height);
      PoppingLeavesOvercount(outboxes, outboxCounters, t, updates, queue);
      OrderedSuffix(outbox, updates, queue);
      outboxes := outboxes[t := outbox.(queue := queue)];
      if updates == [] {
        OvercountByNothing(outboxes, outboxCounters);
        return false;
      }
      assert updates[0] in updates;
      outboxCounters := ReleaseCounters(outboxCounters, updates, outboxes);
      if queue == [] {
        DroppingEmptyKeepsCounts(outboxes, outboxCounters, t);
        outboxes := outboxes - {t};
        assert outboxes == old(outboxes) - {t};
      }
      return true;
    }

    /** Whether no messages are in flight any more up to a height. */
    method AllMessagesDeliveredUpTo(height: BlockHeight) returns (r: bool)
      requires Valid()
      ensures r <==> forall t, h | t in outboxes && h in outboxes[t].queue :: h > height
    {
      if outboxCounters == map[] {
        forall h: BlockHeight ensures Holders(outboxes, h) == {} {
          assert CounterOf(outboxCounters, h) == 0;
        }
        NobodyHolds(outboxes);
        return true;
      }
      LeastExists(outboxCounters.Keys);
      var key: BlockHeight :| IsLeast(outboxCounters.Keys, key);
      assert Holders(outboxes, key) != {};
      var holder :| holder in Holders(outboxes, key);
      forall t, h | t in outboxes && h in outboxes[t].queue ensures h >= key {
        assert t in Holders(outboxes, h);
      }
      return key > height;
    }
  }

  lemma OrderedAppend(b: Outbox, height: BlockHeight)
    requires InOrder(b) && b.nextHeightToSchedule <= height < U64_MAX
    ensures InOrder(Outbox(height + 1, b.queue + [height]))
    ensures height !in b.queue
    ensures forall h :: h in b.queue + [height] <==> h in b.queue || h == height
  {
    var queue := b.queue + [height];
    forall i, j | 0 <= i < j < |queue| ensures queue[i] < queue[j] {
      assert b.queue[i] in b.queue;
    }
  }

  lemma OrderedSuffix(b: Outbox, prefix: seq<BlockHeight>, rest: seq<BlockHeight>)
    requires InOrder(b) && b.queue == prefix + rest
    ensures InOrder(b.(queue := rest))
    ensures forall i, j | 0 <= i < j < |prefix| :: prefix[i] < prefix[j]
    ensures forall h :: h in b.queue && h !in rest <==> h in prefix
  {
    forall i, j | 0 <= i < j < |rest| ensures rest[i] < rest[j] {
      assert b.queue[|prefix| + i] == rest[i] && b.queue[|prefix| + j] == rest[j];
    }
    assert forall h | h in rest :: h in b.queue;
    forall i, j | 0 <= i < j < |prefix| ensures prefix[i] < prefix[j] {
      assert b.queue[i] == prefix[i] && b.queue[j] == prefix[j];
    }
    forall i, j | 0 <= i < |prefix| && 0 <= j < |rest| ensures prefix[i] != rest[j] {
      assert b.queue[i] == prefix[i] && b.queue[|prefix| + j] == rest[j];
    }
  }

  lemma CountsGrow(outboxes: map<Target, Outbox>, counters: map<BlockHeight, nat>, t: Target, b: Outbox,
                   height: BlockHeight)
    requires Counts(outboxes, counters)
    requires forall h: BlockHeight ::
               |Holders(outboxes[t := b], h)| == |Holders(outboxes, h)| + if h == height then 1 else 0
    ensures Counts(outboxes[t := b], counters[height := CounterOf(counters, height) + 1])
  {
    var counters' := counters[height := CounterOf(counters, height) + 1];
    forall h: BlockHeight ensures CounterOf(counters', h) == |Holders(outboxes[t := b], h)| {
      assert CounterOf(counters, h) == |Holders(outboxes, h)|;
    }
  }

  lemma DroppingEmptyKeepsCounts(outboxes: map<Target, Outbox>, counters: map<BlockHeight, nat>, t: Target)
    requires Counts(outboxes, counters) && t in outboxes && outboxes[t].queue == []
    ensures Counts(outboxes - {t}, counters)
  {
    forall h: BlockHeight ensures Holders(outboxes - {t}, h) == Holders(outboxes, h) {}
  }

  /** The counters still count heights that have just left one outbox. */
  ghost predicate Overcounts(outboxes: map<Target, Outbox>, counters: map<BlockHeight, nat>,
                             updates: seq<BlockHeight>) {
    && (forall h | h in counters :: counters[h] > 0)
    && (forall h: BlockHeight :: CounterOf(counters, h) == |Holders(outboxes, h)| + if h in updates then 1 else 0)
  }

  lemma OvercountByNothing(outboxes: map<Target, Outbox>, counters: map<BlockHeight, nat>)
    requires Overcounts(outboxes, counters, [])
    ensures Counts(outboxes, counters)
  {}

  lemma PoppingLeavesOvercount(outboxes: map<Target, Outbox>, counters: map<BlockHeight, nat>, t: Target,
                               updates: seq<BlockHeight>, queue: seq<BlockHeight>)
    requires Counts(outboxes, counters) && InOrder(OutboxOf(outboxes, t))
    requires OutboxOf(outboxes, t).queue == updates + queue
    ensures Overcounts(outboxes[t := OutboxOf(outboxes, t).(queue := queue)], counters, updates)
  {
    OrderedSuffix(OutboxOf(outboxes, t), updates, queue);
    HoldersShrink(outboxes, t, OutboxOf(outboxes, t).(queue := queue));
  }

  lemma NobodyHolds(outboxes: map<Target, Outbox>)
    requires forall h: BlockHeight :: Holders(outboxes, h) == {}
    ensures forall t, h | t in outboxes :: h !in outboxes[t].queue
  {
    forall t, h | t in outboxes ensures h !in outboxes[t].queue {
      assert t !in Holders(outboxes, h);
    }
  }

  /** Decrements the counters of heights that left one outbox; the lookups never fail. */
  method ReleaseCounters(counters: map<BlockHeight, nat>, updates: seq<BlockHeight>,
                         ghost outboxes: map<Target, Outbox>)
    returns (counters': map<BlockHeight, nat>)
    requires Overcounts(outboxes, counters, updates)
    requires forall i, j | 0 <= i < j < |updates| :: updates[i] < updates[j]
    ensures Counts(outboxes, counters')
  {
    counters' := counters;
    assert updates[0..] == updates;
    for i := 0 to |updates|
      invariant Overcounts(outboxes, counters', updates[i..])
    {
      var update := updates[i];
      ReleaseOne(outboxes, counters', updates[i..]);
      assert updates[i..][1..] == updates[i + 1..];
      var counter := counters'[update];
      if counter == 1 {
        counters' := counters' - {update};
      } else {
        counters' := counters'[update := counter - 1];
      }
    }
    OvercountByNothing(outboxes, counters');
  }

  function Decremented(counters: map<BlockHeight, nat>, h: BlockHeight): map<BlockHeight, nat>
    requires h in counters && counters[h] >= 1
  {
    if counters[h] == 1 then counters - {h} else counters[h := counters[h] - 1]
  }

  /** The counter of a height that left an outbox is present and positive. */
  lemma ReleaseOne(outboxes: map<Target, Outbox>, counters: map<BlockHeight, nat>, updates: seq<BlockHeight>)
    requires Overcounts(outboxes, counters, updates) && updates != []
    requires forall i, j | 0 <= i < j < |updates| :: updates[i] < updates[j]
    ensures updates[0] in counters && counters[updates[0]] >= 1
    ensures var update := updates[0];
            Overcounts(outboxes, Decremented(counters, update), updates[1..])
  {
    var update := updates[0];
    assert CounterOf(counters, update) >= 1;
    var counters' := Decremented(counters, update);
    forall h: BlockHeight
      ensures CounterOf(counters', h) == |Holders(outboxes, h)| + if h in updates[1..] then 1 else 0
    {
      assert CounterOf(counters, h) == |Holders(outboxes, h)| + if h in updates then 1 else 0;
      assert updates == [update] + updates[1..];
    }
  }

  /** Splits a queue in order at a height. */
  method PopUpTo(queue: seq<BlockHeight>, height: BlockHeight)
    returns (rest: seq<BlockHeight>, updates: seq<BlockHeight>)
    requires forall i, j | 0 <= i < j < |queue| :: queue[i] < queue[j]
    ensures rest == Above(queue, height)
    ensures updates + rest == queue
    ensures forall h | h in updates :: h <= height
    ensures forall h | h in rest :: h > height
  {
    rest, updates := queue, [];
    while rest != [] && rest[0] <= height
      invariant updates + rest == queue
      invariant forall h | h in updates :: h <= height
      invariant Above(rest, height) == Above(queue, height)
      decreases |rest|
    {
      assert rest == [rest[0]] + rest[1..];
      updates := updates + [rest[0]];
      rest := rest[1..];
    }
    RestIsAbove(queue, updates, rest, height);
    AboveAll(rest, height);
  }

  lemma RestIsAbove(queue: seq<BlockHeight>, updates: seq<BlockHeight>, rest: seq<BlockHeight>, height: BlockHeight)
    requires forall i, j | 0 <= i < j < |queue| :: queue[i] < queue[j]
    requires updates + rest == queue && (rest != [] ==> rest[0] > height)
    ensures forall h | h in rest :: h > height
  {
    forall h | h in rest ensures h > height {
      var j :| 0 <= j < |rest| && rest[j] == h;
      assert queue[|updates| + j] == h && queue[|updates|] == rest[0];
    }
  }

  lemma {:induction false} FailedTargets(outboxes: map<Target, Outbox>, targets: seq<Target>, height: BlockHeight,
                                         n: nat)
    requires n <= |targets| && ScheduledForAll(outboxes, targets[..n], height).None?
    ensures ScheduledForAll(outboxes, targets, height).None?
    decreases |targets| - n
  {
    if n == |targets| {
      assert targets[..n] == targets;
    } else {
      assert targets[..n + 1][..n] == targets[..n];
      FailedTargets(outboxes, targets, height, n + 1);
    }
  }

  lemma {:induction false} FailedHeights(outboxes: map<Target, Outbox>, t: Target, heights: seq<BlockHeight>, n: nat)
    requires n <= |heights| && BackFilled(outboxes, t, heights[..n]).None?
    ensures BackFilled(outboxes, t, heights).None?
    decreases |heights| - n
  {
    if n == |heights| {
      assert heights[..n] == heights;
    } else {
      assert heights[..n + 1][..n] == heights[..n];
      FailedHeights(outboxes, t, heights, n + 1);
    }
  }

  /** No counter exceeds the number of outboxes, so 32 bits suffice for fewer than 2^32 of them. */
  lemma CountersAreBounded(outboxes: map<Target, Outbox>, counters: map<BlockHeight, nat>, h: BlockHeight)
    requires Counts(outboxes, counters)
    ensures CounterOf(counters, h) <= |outboxes|
  {
    SubsetIsSmaller(Holders(outboxes, h), outboxes.Keys);
  }

  lemma SubsetIsSmaller(a: set<Target>, b: set<Target>)
    requires a <= b
    ensures |a| <= |b|
  {
    assert b == a + (b - a);
  }

  // ----- Histories -----

  datatype Op = Schedule(target: Target, height: BlockHeight) | Acknowledge(target: Target, height: BlockHeight)

  function After(ops: seq<Op>): Option<map<Target, Outbox>> {
    if ops == [] then Some(map[])
    else
      var before := After(ops[..|ops| - 1]);
      if before.None? then None
      else
        match ops[|ops| - 1]
        case Schedule(t, height) => Scheduled(before.value, t, height)
        case Acknowledge(t, height) => Some(Acknowledged(before.value, t, height))
  }

  /** An acknowledgement that leaves nothing in the outbox of a target, which is then forgotten. */
  predicate EmptiesAt(ops: seq<Op>, k: nat, t: Target)
    requires k < |ops|
  {
    && ops[k].Acknowledge? && ops[k].target == t
    && After(ops[..k]).Some?
    && var queue := OutboxOf(After(ops[..k]).value, t).queue;
       queue != [] && Above(queue, ops[k].height) == []
  }

  predicate SchedulesAt(ops: seq<Op>, i: nat, t: Target, height: BlockHeight)
    requires i < |ops|
  {
    ops[i].Schedule? && ops[i].target == t && ops[i].height >= height
  }

  /** Whatever was scheduled for the target at this height or above has been forgotten since. */
  predicate Forgotten(ops: seq<Op>, t: Target, height: BlockHeight) {
    forall i | 0 <= i < |ops| && SchedulesAt(ops, i, t, height) :: EmptiedAfter(ops, i, t)
  }

  predicate EmptiedAfter(ops: seq<Op>, i: nat, t: Target) {
    exists k | i < k < |ops| :: EmptiesAt(ops, k, t)
  }

  lemma EmptiesInPrefix(ops: seq<Op>, n: nat, k: nat, t: Target)
    requires k < n <= |ops|
    ensures EmptiesAt(ops, k, t) <==> EmptiesAt(ops[..n], k, t)
  {
    assert ops[..n][..k] == ops[..k];
  }

  lemma EmptiedAfterStep(ops: seq<Op>, i: nat, t: Target)
    requires i < |ops| - 1
    ensures EmptiedAfter(ops, i, t) <==> EmptiesAt(ops, |ops| - 1, t) || EmptiedAfter(ops[..|ops| - 1], i, t)
  {
    var n := |ops| - 1;
    forall k | i < k < n ensures EmptiesAt(ops, k, t) <==> EmptiesAt(ops[..n], k, t) {
      EmptiesInPrefix(ops, n, k, t);
    }
  }

  /** One more operation: it may schedule the height, empty the outbox, or do neither. */
  lemma ForgottenStep(ops: seq<Op>, t: Target, height: BlockHeight)
    requires ops != []
    ensures var n := |ops| - 1;
            Forgotten(ops, t, height) <==>
            EmptiesAt(ops, n, t) || (!SchedulesAt(ops, n, t, height) && Forgotten(ops[..n], t, height))
  {
    var n := |ops| - 1;
    forall i | 0 <= i < n
      ensures SchedulesAt(ops, i, t, height) <==> SchedulesAt(ops[..n], i, t, height)
      ensures EmptiedAfter(ops, i, t) <==> EmptiesAt(ops, n, t) || EmptiedAfter(ops[..n], i, t)
    {
      EmptiedAfterStep(ops, i, t);
    }
    assert !EmptiedAfter(ops, n, t);
  }

  /**
   * After any history, a height is added for a target if and only if every earlier scheduling of it
   * or of a later height was followed by an acknowledgement that emptied the target's outbox.
   */
  lemma {:induction false} ScheduledAgainExactly(ops: seq<Op>, t: Target, height: BlockHeight)
    requires After(ops).Some?
    ensures IsNew(After(ops).value, t, height) <==> Forgotten(ops, t, height)
  {
    if ops != [] {
      ScheduledAgainExactly(ops[..|ops| - 1], t, height);
      ForgottenStep(ops, t, height);
    }
  }

  /** The same height can be scheduled twice, if it was acknowledged in between. */
  lemma ScheduledTwice(t: Target, height: BlockHeight)
    requires height < U64_MAX
    ensures After([]) == Some(map[]) && IsNew(map[], t, height)
    ensures After([Schedule(t, height), Acknowledge(t, height)]).Some?
    ensures IsNew(After([Schedule(t, height), Acknowledge(t, height)]).value, t, height)
  {
    var one, two := [Schedule(t, height)], [Schedule(t, height), Acknowledge(t, height)];
    assert one[..0] == [] && two[..1] == one;
    assert After(one) == Scheduled(map[], t, height);
    assert OutboxOf(After(one).value, t) == Outbox(height + 1, [height]);
    assert [height][1..] == [] && Above([height], height) == [];
    assert After(two) == Some(Acknowledged(After(one).value, t, height));
  }
}
