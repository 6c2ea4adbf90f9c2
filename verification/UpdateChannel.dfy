/** The pinned update channel: whatever the mirrors answer, it only moves forward. */
module UpdateChannel {
  import opened Outcomes

  /** A signed channel: the channel proper, and the signature that vouches for it. */
  datatype Channel = Channel(id: string, generation: nat, content: string)
  datatype Signed = Signed(channel: Channel, signature: string)

  /** What one mirror answers after its signature was checked, and whether the state file could be
      written if the answer is to be pinned. */
  datatype Reply = Unavailable | Answer(candidate: Signed, writable: bool)

  /** How a refresh ends; an inconsistent answer aborts it, failing mirrors do not. */
  datatype Refreshed = Channels(chosen: Option<Signed>) | Inconsistent | Failed

  /** `next` may replace `current`: same channel, and a change of content only at a strictly higher generation. */
  predicate Supersedes(current: Option<Signed>, next: Option<Signed>) {
    current.Some? ==>
      && next.Some?
      && next.value.channel.id == current.value.channel.id
      && next.value.channel.generation >= current.value.channel.generation
      && (next.value.channel.generation == current.value.channel.generation ==>
            next.value.channel == current.value.channel)
  }

  /** The reply settles the refresh: another channel, the cached generation again, or one to be pinned. A
      mirror that is down, is behind, or whose channel cannot be written is passed over. */
  predicate Decides(cached: Option<Signed>, reply: Reply) {
    && reply.Answer?
    && (cached.None? ==> reply.writable)
    && (cached.Some? ==>
          var c, known := reply.candidate.channel, cached.value.channel;
          c.id != known.id || c.generation == known.generation || (c.generation > known.generation && reply.writable))
  }

  /** The first reply that settles it. */
  ghost predicate IsFirst(cached: Option<Signed>, replies: seq<Reply>, i: int) {
    && 0 <= i < |replies| && Decides(cached, replies[i])
    && forall j :: 0 <= j < i ==> !Decides(cached, replies[j])
  }

  /** What candidate `c` makes of the refresh: the result and the pin afterwards. */
  ghost predicate Settles(
    cached: Option<Signed>, c: Signed, before: Option<Signed>, after: Option<Signed>, r: Refreshed)
  {
    if cached.Some? && c.channel.id != cached.value.channel.id then r == Inconsistent && after == before
    else if cached.Some? && c.channel.generation == cached.value.channel.generation then
      r == (if c.channel == cached.value.channel then Channels(cached) else Inconsistent) && after == before
    else if Supersedes(before, Some(c)) then r == Channels(Some(c)) && after == Some(c)
    else r == Inconsistent && after == before
  }

  class Pin {
    var pinned: Option<Signed>
    ghost var history: seq<Option<Signed>>

    ghost predicate Inv()
      reads this
    {
      && history != [] && history[|history| - 1] == pinned
      && forall i :: 0 < i < |history| ==> Supersedes(history[i - 1], history[i])
    }

    constructor ()
      ensures Inv() && pinned.None?
    {
      pinned := None;
      history := [None];
    }

    /** The transaction that pins a candidate; it re-checks against what is pinned by now. */
    method Persist(candidate: Signed) returns (accepted: bool)
      requires Inv()
      modifies this
      ensures Inv() && old(history) <= history
      ensures accepted <==> Supersedes(old(pinned), Some(candidate))
      ensures pinned == if accepted then Some(candidate) else old(pinned)
    {
      if pinned.Some? {
        var current := pinned.value.channel;
        if current.id != candidate.channel.id { return false; }
        if current.generation > candidate.channel.generation { return false; }
        if current.generation == candidate.channel.generation && current != candidate.channel { return false; }
      }
      pinned := Some(candidate);
      history := history + [pinned];
      accepted := true;
    }

    /** Ask the mirrors in turn. `cached` is the channel read before the refresh began, which
        another refresh may have replaced since; `mandatory` says that a channel is configured. */
    method Refresh(cached: Option<Signed>, replies: seq<Reply>, mandatory: bool) returns (r: Refreshed)
      requires Inv()
      modifies this
      ensures Inv() && old(history) <= history
      ensures forall i :: IsFirst(cached, replies, i) ==>
                Settles(cached, replies[i].candidate, old(pinned), pinned, r)
      ensures (forall i :: 0 <= i < |replies| ==> !Decides(cached, replies[i])) ==>
                && pinned == old(pinned)
                && r == if cached.Some? || !mandatory || replies == [] then Channels(cached) else Failed
      ensures r.Channels? ==> Supersedes(cached, r.chosen)
    {
      for i := 0 to |replies|
        invariant Inv() && history == old(history) && pinned == old(pinned)
        invariant forall j :: 0 <= j < i ==> !Decides(cached, replies[j])
      {
        if replies[i].Answer? {
          var c := replies[i].candidate;
          if cached.Some? && c.channel.id != cached.value.channel.id { return Inconsistent; }
          if cached.Some? && c.channel.generation < cached.value.channel.generation { continue; }
          if cached.Some? && c.channel.generation == cached.value.channel.generation {
            if c.channel != cached.value.channel { return Inconsistent; }
            return Channels(cached);
          }
          if replies[i].writable {
            var accepted := Persist(c);
            return if accepted then Channels(Some(c)) else Inconsistent;
          }
        }
      }
      if cached.Some? || |replies| == 0 || !mandatory { return Channels(cached); }
      return Failed;
    }
  }

  /** Over every sequence of refreshes the pinned channel keeps its ID, its generation never falls,
      and its content changes only when the generation strictly rises. */
  lemma {:induction false} PinOnlyMovesForward(history: seq<Option<Signed>>, i: nat, j: nat)
    requires forall k :: 0 < k < |history| ==> Supersedes(history[k - 1], history[k])
    requires i <= j < |history|
    ensures Supersedes(history[i], history[j])
    decreases j - i
  {
    if i < j {
      PinOnlyMovesForward(history, i, j - 1);
      assert Supersedes(history[j - 1], history[j]);
    }
  }
}
