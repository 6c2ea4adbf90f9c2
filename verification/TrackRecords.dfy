/** The persisted record of the two execution tracks: what a record may say, how one intent
    changes it, and what its compare-and-set protects. */
module TrackRecords {
  import opened Outcomes

  type Release = string

  datatype Phase = Steady | Releasing | Activating | Attention

  datatype TrackState = TrackState(
    generation: nat,
    active: Release,
    standby: Option<Release>,
    phase: Phase,
    target: Option<Release>,
    forwardOnly: bool,
    backup: Option<string>,
    writeStarted: bool)

  /** The checks the file is parsed with on every read and every write. */
  predicate Valid(s: TrackState) {
    && (s.phase != Steady ==> s.target.Some?)
    && (s.backup.Some? || s.writeStarted ==> s.forwardOnly)
  }

  /** What every persisted record satisfies beyond the parser's checks. */
  ghost predicate Sound(s: TrackState) {
    && Valid(s)
    && (s.phase == Steady ==> s.target.None?)
    && (s.writeStarted ==> s.backup.Some? && s.standby.None?)
    && (s.phase == Steady && s.forwardOnly ==> s.writeStarted)
  }

  /** The releases the record admits it may have started. */
  function Pair(s: TrackState): set<Release> {
    {s.active} + if s.target.Some? then {s.target.value} else {}
  }

  /** The release the user selected last. */
  function Selected(s: TrackState): Release {
    if s.target.Some? then s.target.value else s.active
  }

  /** The record written by the intent transaction for release `r`. */
  function Intent(s: TrackState, r: Release, forwardOnly: bool): TrackState
    requires Valid(s)
  {
    s.(generation := s.generation + 1,
       active := if s.phase == Attention && r == s.active then s.target.value else s.active,
       target := Some(r),
       phase := Releasing,
       forwardOnly := forwardOnly,
       backup := None,
       writeStarted := false)
  }

  /** The steady record a completed handoff of `s` leaves behind. */
  function Completed(s: TrackState): TrackState
    requires s.target.Some?
  {
    var target := s.target.value;
    TrackState(s.generation, target,
               if s.forwardOnly then None else if target != s.active then Some(s.active) else s.standby,
               Steady, None, s.forwardOnly, s.backup, s.forwardOnly)
  }

  /** Two consecutive persisted records: within a generation the selection, the forward-only
      decision, the original backup and the write boundary are kept; only a rise by one changes them. */
  ghost predicate Follows(s: TrackState, t: TrackState) {
    || (&& t.generation == s.generation
        && Selected(t) == Selected(s)
        && t.forwardOnly == s.forwardOnly
        && (s.backup.Some? ==> t.backup == s.backup)
        && (s.writeStarted ==> t.writeStarted))
    || (&& t.generation == s.generation + 1
        && s.phase in {Steady, Attention}
        && (s.phase == Attention ==> !s.forwardOnly)
        && (s.phase == Steady ==> s.active in Pair(t)))
  }

  /** The records of a run: each sound, each following the one before it. */
  ghost predicate HistoryOk(h: seq<TrackState>) {
    h == [] ||
    var n := |h| - 1;
    Sound(h[n]) && HistoryOk(h[..n]) && (n > 0 ==> Follows(h[n - 1], h[n]))
  }

  lemma HistoryGrows(h: seq<TrackState>, s: TrackState)
    requires h != []
    ensures HistoryOk(h + [s]) <==> HistoryOk(h) && Sound(s) && Follows(h[|h| - 1], s)
  {
    assert (h + [s])[..|h|] == h;
  }

  /** Over a whole run the generation never falls, and it determines the selected release, the
      forward-only decision and (once taken) the backup. */
  lemma {:induction false} GenerationDeterminesSelection(h: seq<TrackState>, i: nat, j: nat)
    requires HistoryOk(h) && i <= j < |h|
    ensures Sound(h[i]) && h[i].generation <= h[j].generation <= h[i].generation + (j - i)
    ensures h[i].generation == h[j].generation ==>
              && Selected(h[i]) == Selected(h[j])
              && h[i].forwardOnly == h[j].forwardOnly
              && (h[i].backup.Some? ==> h[j].backup == h[i].backup)
              && (h[i].writeStarted ==> h[j].writeStarted)
    decreases |h|
  {
    var n := |h| - 1;
    if j < n {
      GenerationDeterminesSelection(h[..n], i, j);
    } else if i < n {
      GenerationDeterminesSelection(h[..n], i, n - 1);
    }
  }

  /** A selection for which the new record still names every release the old one might have
      started. A caller can evaluate it on the status it displayed. */
  predicate StaysOnTrack(s: TrackState, r: Release) {
    s.phase == Steady || r in Pair(s) || s.target == Some(s.active)
  }

  /** The selections the intent transaction is reached with (gatewayExecutionTracks.ts:78-87). */
  predicate Selectable(s: TrackState, r: Release) {
    || (s.phase == Steady && r != s.active)
    || (s.phase == Attention && !s.forwardOnly && (r in Pair(s) || s.standby == Some(r)))
  }

  /** Exactly the on-track selections keep every possibly running release inside the record. */
  lemma IntentCoversRunningExactly(s: TrackState, r: Release, forwardOnly: bool)
    requires Sound(s) && Selectable(s, r)
    ensures StaysOnTrack(s, r) <==>
            forall running: set<Release> :: running <= Pair(s) ==> running <= Pair(Intent(s, r, forwardOnly))
  {
    if !StaysOnTrack(s, r) {
      assert {s.target.value} <= Pair(s);
      assert s.target.value !in Pair(Intent(s, r, forwardOnly));
    }
  }

  /** The record a failed handoff of `s0` to `r` leaves. */
  function Interrupted(s0: TrackState, r: Release): TrackState
    requires Valid(s0)
  {
    Intent(s0, r, false).(phase := Attention)
  }

  /** The off-track case comes up from every steady record with a standby: select another release,
      let its handoff fail with the release left running, and select the standby. Both choices are
      accepted and both writes follow each other, yet the new record names the failed target no more. */
  lemma StandbySelectionForgetsFailedTarget(s0: TrackState, failed: Release)
    requires Sound(s0) && s0.phase == Steady && s0.standby.Some? && s0.standby.value != s0.active
    requires failed != s0.active && failed != s0.standby.value
    ensures Selectable(s0, failed) && Follows(s0, Intent(s0, failed, false))
    ensures var s, standby := Interrupted(s0, failed), s0.standby.value;
      && Sound(s) && Follows(Intent(s0, failed, false), s) && Selectable(s, standby) && !StaysOnTrack(s, standby)
      && failed in Pair(s) && failed !in Pair(Intent(s, standby, false))
  {
  }

  /** One such record: from "1" with standby "0", release "2" fails and is forgotten. */
  lemma FailedTargetForgotten()
    ensures var s := Interrupted(TrackState(7, "1", Some("0"), Steady, None, false, None, false), "2");
      Selectable(s, "0") && "2" in Pair(s) && Pair(Intent(s, "0", false)) == {"0", "1"}
  {
  }

  // ---------------------------------------------------------------------------
  // The file transactions alone, from any number of uncoordinated supervisors
  // ---------------------------------------------------------------------------

  datatype Transaction =
    | Commit(release: Release, quoted: nat, seen: Phase, forwardOnly: bool)
    | Save(next: TrackState)

  /** One atomic read-modify-write of the file; `None` is the rejection that leaves it unchanged. */
  function Transact(s: TrackState, t: Transaction): (r: Option<TrackState>)
    ensures r.Some? ==> Valid(s)
  {
    if !Valid(s) then None
    else match t
      case Commit(release, quoted, seen, forwardOnly) =>
        if s.generation != quoted || s.phase != seen then None else Some(Intent(s, release, forwardOnly))
      case Save(next) =>
        if !Valid(next) || s.generation != next.generation then None else Some(next)
  }

  function After(s: TrackState, ts: seq<Transaction>): TrackState {
    if ts == [] then s
    else
      var before := After(s, ts[..|ts| - 1]);
      var r := Transact(before, ts[|ts| - 1]);
      if r.Some? then r.value else before
  }

  /** Transaction `i` of the interleaving is an intent and it was accepted. */
  predicate Accepted(s: TrackState, ts: seq<Transaction>, i: nat)
    requires i < |ts|
  {
    ts[i].Commit? && Transact(After(s, ts[..i]), ts[i]).Some?
  }

  lemma {:induction false} GenerationNeverFalls(s: TrackState, ts: seq<Transaction>, i: nat)
    requires i <= |ts|
    ensures After(s, ts[..i]).generation <= After(s, ts).generation
    decreases |ts|
  {
    if i == |ts| {
      assert ts[..i] == ts;
    } else {
      var shorter := ts[..|ts| - 1];
      assert shorter[..i] == ts[..i];
      GenerationNeverFalls(s, shorter, i);
    }
  }

  /** However the transactions of any number of supervisors interleave, whatever they saved in
      between, at most one intent quoting a given generation is accepted. */
  lemma AtMostOneIntentPerGeneration(s: TrackState, ts: seq<Transaction>, i: nat, j: nat)
    requires i < j < |ts| && Accepted(s, ts, i) && Accepted(s, ts, j)
    ensures ts[i].quoted < ts[j].quoted
  {
    var upTo := ts[..j];
    assert upTo[..i + 1] == ts[..i + 1];
    assert ts[..i + 1][..i] == ts[..i];
    GenerationNeverFalls(s, upTo, i + 1);
  }
}
