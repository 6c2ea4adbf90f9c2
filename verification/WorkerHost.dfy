/** The two version controllers and the requests they owe an answer to. Answers, exits, send errors
    and time-outs arrive in any order between the steps of a call. */
module WorkerHost {
  type Release = string

  datatype Worker = Worker(serial: nat, release: Release)

  datatype Call = Initialize | ActivateCall | ReleaseCall | HealthCall

  /** One request to a controller. */
  datatype Asked = Asked(worker: Worker, call: Call)

  /** One release looked up, as a forward-only target or not. */
  datatype Lookup = Lookup(id: Release, forward: bool, found: bool)

  datatype Verdict = Present | Full | Free

  /** A callback of the event loop. */
  datatype Callback =
    | Failed(worker: Worker)
    | Message(worker: Worker, id: nat, ok: bool)
    | TimedOut(id: nat)
    | SendError(id: nat)

  ghost predicate Within(few: map<Release, Worker>, many: map<Release, Worker>) {
    forall r :: r in few ==> r in many && few[r] == many[r]
  }

  lemma WithinIsSmaller(few: map<Release, Worker>, many: map<Release, Worker>)
    requires Within(few, many)
    ensures |few| <= |many|
  {
    SmallerSet(few.Keys, many.Keys);
  }

  lemma {:induction false} SmallerSet(a: set<Release>, b: set<Release>)
    requires a <= b
    ensures |a| <= |b|
    decreases |a|
  {
    if x :| x in a { SmallerSet(a - {x}, b - {x}); }
  }

  /** Every request handed out is pending, with a timer, or settled, and never both. */
  ghost predicate Accounted(pending: map<nat, Worker>, timers: set<nat>, settled: map<nat, bool>, sequence: nat) {
    forall k: nat {:trigger Kept(pending, timers, settled, sequence, k)} :: Kept(pending, timers, settled, sequence, k)
  }

  ghost predicate Kept(pending: map<nat, Worker>, timers: set<nat>, settled: map<nat, bool>, sequence: nat, k: nat) {
    && (1 <= k <= sequence <==> k in pending || k in settled)
    && (k in pending ==> k !in settled)
    && (k in timers <==> k in pending)
  }

  lemma Accounting(pending: map<nat, Worker>, timers: set<nat>, settled: map<nat, bool>, sequence: nat)
    requires Accounted(pending, timers, settled, sequence)
    ensures forall k: nat :: 1 <= k <= sequence <==> k in pending || k in settled
    ensures forall k :: k in pending ==> k !in settled
    ensures forall k :: k in timers <==> k in pending
  {
    forall k: nat
      ensures (1 <= k <= sequence <==> k in pending || k in settled)
      ensures (k in pending ==> k !in settled) && (k in timers <==> k in pending)
    {
      assert Kept(pending, timers, settled, sequence, k);
    }
  }

  lemma OneMorePending(
    pending: map<nat, Worker>, timers: set<nat>, settled: map<nat, bool>, sequence: nat, worker: Worker)
    requires Accounted(pending, timers, settled, sequence)
    ensures var id := sequence + 1;
      Accounted(pending[id := worker], timers + {id}, settled, id) && id !in pending && id !in settled
  {
    var id := sequence + 1;
    var more, armed := pending[id := worker], timers + {id};
    forall k: nat ensures Kept(more, armed, settled, id, k) {
      assert Kept(pending, timers, settled, sequence, k);
    }
    assert Kept(pending, timers, settled, sequence, id);
  }

  /** What is asked of a new controller: nothing unless its release was just looked up and found. */
  function Greeting(lookups: seq<Lookup>, serial: nat, id: Release): seq<Asked> {
    if lookups != [] && lookups[0].found then [Asked(Worker(serial, id), Initialize)] else []
  }

  /** A promise already settled ignores a second answer. */
  function SettledAs(settled: map<nat, bool>, id: nat, ok: bool): map<nat, bool> {
    if id in settled then settled else settled[id := ok]
  }

  lemma OneMoreSettled(
    pending: map<nat, Worker>, timers: set<nat>, settled: map<nat, bool>, sequence: nat, id: nat, ok: bool)
    requires Accounted(pending, timers, settled, sequence) && 1 <= id <= sequence
    ensures Accounted(pending - {id}, timers - {id}, SettledAs(settled, id, ok), sequence)
    ensures id in pending <==> id !in settled
  {
    forall k: nat ensures Kept(pending - {id}, timers - {id}, SettledAs(settled, id, ok), sequence, k) {
      assert Kept(pending, timers, settled, sequence, k);
    }
    assert Kept(pending, timers, settled, sequence, id);
  }

  /** With no request added, what was settled meanwhile had been pending. */
  lemma WasPending(
    p: map<nat, Worker>, t: set<nat>, s: map<nat, bool>, p': map<nat, Worker>, t': set<nat>, s': map<nat, bool>,
    n: nat)
    requires Accounted(p, t, s, n) && Accounted(p', t', s', n)
    ensures forall k :: k in s' && k !in s ==> k in p && k !in p'
  {
    forall k: nat | k in s' && k !in s ensures k in p && k !in p' {
      assert Kept(p, t, s, n, k) && Kept(p', t', s', n, k);
    }
  }

  class GatewayExecutionWorkerHost {
    var workers: map<Release, Worker>
    var pending: map<nat, Worker>
    var timers: set<nat>
    var sequence: nat
    var forwardReleases: set<Release>
    var forked: nat
    const dataDirectory: string
    const nodeId: string
    const forwardCapable: bool
    /** The caller starts no call before the last one ended, as the track selector does. */
    const serialized: bool
    /** How each promise handed out was settled: resolved or rejected. */
    var settled: map<nat, bool>
    /** The controllers that were asked to activate and have not confirmed a release since. */
    ghost var started: set<Worker>
    /** What was asked of whom, in the order of the request numbers. */
    ghost var asked: seq<Asked>
    /** The releases looked up in the configuration. */
    ghost var lookups: seq<Lookup>
    /** The controllers whose channel this host closed, which makes them exit. */
    ghost var disconnects: seq<Worker>

    ghost predicate Inv()
      reads this
    {
      && (serialized ==> |workers| <= 2)
      && (forall r :: r in workers ==> workers[r].release == r && workers[r].serial < forked)
      && Accounted(pending, timers, settled, sequence) && |asked| == sequence
    }

    /** No promise is settled twice, and no request is forgotten. */
    twostate predicate Extends()
      reads this
    {
      && (forall k :: k in old(settled) ==> k in settled && settled[k] == old(settled)[k])
      && (forall k :: k in old(pending) ==> k in settled || (k in pending && pending[k] == old(pending)[k]))
      && old(sequence) <= sequence && old(forked) <= forked && old(asked) <= asked
    }

    /** What callbacks alone can do: drop controllers and settle requests. */
    twostate predicate Quiet()
      reads this
    {
      && Within(workers, old(workers)) && pending.Keys <= old(pending).Keys
      && sequence == old(sequence) && forked == old(forked) && started == old(started)
      && asked == old(asked)
    }

    predicate Tracked(worker: Worker)
      reads this
    {
      worker.release in workers && workers[worker.release] == worker
    }

    /** A Gateway of this release may run. */
    ghost predicate MayRun(id: Release)
      reads this
    {
      exists w :: w in started && w.release == id
    }

    /** A controller of this release left the table before it confirmed a release. */
    ghost predicate Orphaned(id: Release)
      reads this
    {
      exists w :: w in started && w.release == id && !Tracked(w)
    }

    constructor (dataDirectory: string, nodeId: string, forwardCapable: bool, serialized: bool)
      ensures Inv() && workers == map[] && pending == map[] && settled == map[] && sequence == 0 && started == {}
      ensures this.serialized == serialized && this.forwardCapable == forwardCapable
      ensures this.dataDirectory == dataDirectory && this.nodeId == nodeId
    {
      this.dataDirectory := dataDirectory;
      this.nodeId := nodeId;
      this.forwardCapable := forwardCapable;
      this.serialized := serialized;
      workers, pending, timers, sequence, forwardReleases, forked, settled := map[], map[], {}, 0, {}, 0, map[];
      started, asked, lookups, disconnects := {}, [], [], [];
    }

    /** The table entry and its timer go, and the promise is settled. */
    method Finish(id: nat, ok: bool)
      requires Inv() && 1 <= id <= sequence
      modifies this`pending, this`timers, this`settled
      ensures Inv() && Extends() && id in settled
      ensures pending == old(pending) - {id}
      ensures settled == if id in old(pending) then old(settled)[id := ok] else old(settled)
    {
      OneMoreSettled(pending, timers, settled, sequence, id, ok);
      timers := timers - {id};
      pending := pending - {id};
      settled := SettledAs(settled, id, ok);
    }

    /** Request `key` is rejected if the controller owes it. */
    method RejectOne(key: nat, worker: Worker)
      requires Inv() && 1 <= key <= sequence
      modifies this`pending, this`timers, this`settled
      ensures Inv() && Extends()
      ensures forall k :: k in pending <==> k in old(pending) && !(k == key && old(pending)[k] == worker)
      ensures forall k :: k in settled && k !in old(settled) ==> k == key && !settled[k]
    {
      if key in pending && pending[key] == worker { Finish(key, false); }
    }

    /** Everything the controller still owes is rejected. */
    method RejectOwed(worker: Worker)
      requires Inv()
      modifies this`pending, this`timers, this`settled
      ensures Inv() && Extends()
      ensures forall k :: k in pending <==> k in old(pending) && old(pending)[k] != worker
      ensures forall k :: k in settled && k !in old(settled) ==> !settled[k]
    {
      Accounting(pending, timers, settled, sequence);
      for key := 1 to sequence + 1
        invariant Inv() && Extends()
        invariant forall k :: k in pending <==> k in old(pending) && (old(pending)[k] == worker ==> k >= key)
        invariant forall k :: k in settled && k !in old(settled) ==> !settled[k]
      {
        Accounting(pending, timers, settled, sequence);
        RejectOne(key, worker);
      }
    }

    /** `fail`: the controller is dropped, unless another one took its place, and owes nothing. */
    method FailWorker(worker: Worker)
      requires Inv()
      modifies this`workers, this`pending, this`timers, this`settled
      ensures Inv() && Extends() && workers == old(Without(worker))
      ensures forall k :: k in pending <==> k in old(pending) && old(pending)[k] != worker
      ensures forall k :: k in settled && k !in old(settled) ==>
                k in old(pending) && old(pending)[k] == worker && !settled[k]
    {
      DropWorker(worker);
      RejectOwed(worker);
      WasPending(old(pending), old(timers), old(settled), pending, timers, settled, sequence);
    }

    function Without(worker: Worker): map<Release, Worker>
      reads this
    {
      if worker.release in workers && workers[worker.release] == worker then workers - {worker.release} else workers
    }

    /** One callback. A time-out can only come from a timer that is still armed. */
    method Handle(c: Callback)
      requires Inv()
      requires c.TimedOut? ==> c.id in timers
      requires c.SendError? ==> 1 <= c.id <= sequence
      modifies this`workers, this`pending, this`timers, this`settled
      ensures Inv() && Extends() && Within(workers, old(workers))
      ensures forall k :: k in pending ==> k in old(pending) && pending[k] == old(pending)[k]
      ensures forall r :: r in old(workers) && r !in workers ==>
                forall k :: k in pending ==> pending[k] != old(workers)[r]
      ensures forall k :: k in settled && k !in old(settled) && settled[k] ==>
                k in old(pending) && c == Message(old(pending)[k], k, true) && workers == old(workers)
      ensures c.Message? && old(c.id in pending && pending[c.id] == c.worker) ==> settled == old(settled)[c.id := c.ok]
      ensures c.TimedOut? || c.SendError? ==> c.id !in pending
      ensures c.Failed? ==> workers == old(Without(c.worker)) && c.worker !in pending.Values
    {
      Accounting(pending, timers, settled, sequence);
      match c {
        case Failed(worker) => FailWorker(worker);
        case Message(worker, id, ok) =>
          if id in pending && pending[id] == worker { Finish(id, ok); }
        case TimedOut(id) => Finish(id, false);
        case SendError(id) => Finish(id, false);
      }
    }

    // -------------------------------------------------------------------------
    // Awaiting
    // -------------------------------------------------------------------------

    /** A request goes out: its entry and its timer are there from now on until it is settled. */
    method Issue(worker: Worker, call: Call) returns (id: nat)
      requires Inv() && worker.serial < forked
      modifies this`pending, this`timers, this`sequence, this`started, this`asked
      ensures Inv() && Extends() && id == sequence == old(sequence) + 1
      ensures pending == old(pending)[id := worker]
      ensures asked == old(asked) + [Asked(worker, call)]
      ensures started == if call.ActivateCall? then old(started) + {worker} else old(started)
    {
      OneMorePending(pending, timers, settled, sequence, worker);
      sequence := sequence + 1;
      id := sequence;
      timers := timers + {id};
      pending := pending[id := worker];
      asked := asked + [Asked(worker, call)];
      if call.ActivateCall? { started := started + {worker}; }
    }

    /** What a call that overlaps this one may do meanwhile: put a controller of its own into the table,
        past a check it made earlier, and issue requests. */
    method OtherCall()
      requires Inv() && !serialized
      modifies this`workers, this`pending, this`timers, this`sequence, this`forked, this`started, this`asked
      ensures Inv() && Extends()
    {
      var id: Release := *;
      var call: Call := *;
      var starts: bool := *;
      if starts { PutWorker(id); }
      if id in workers { var request := Issue(workers[id], call); }
    }

    /** Anything that can come next. */
    method Step()
      requires Inv()
      modifies this`workers, this`pending, this`timers, this`settled, this`sequence, this`forked, this`started,
               this`asked
      ensures Inv() && Extends()
      ensures serialized ==> Quiet()
      ensures serialized ==> forall w :: old(Tracked(w)) && !Tracked(w) ==> w !in pending.Values
      ensures serialized ==> forall k :: k in settled && k !in old(settled) && settled[k] ==> workers == old(workers)
    {
      var c: Callback := *;
      var other: bool := *;
      if !serialized && other {
        OtherCall();
        return;
      }
      if c.TimedOut? && c.id !in timers { return; }
      if c.SendError? && !(1 <= c.id <= sequence) { return; }
      Handle(c);
    }

    /** Anything at all happens while a call waits for something else. */
    method Await()
      requires Inv()
      modifies this`workers, this`pending, this`timers, this`settled, this`sequence, this`forked, this`started,
               this`asked
      ensures Inv() && Extends() && (serialized ==> Quiet())
    {
      var n: int := *;
      while n > 0
        invariant Inv() && Extends() && (serialized ==> Quiet())
      {
        Step();
        n := n - 1;
      }
    }

    /** Without other calls, the table does not fill up meanwhile. */
    method AwaitQuietly()
      requires Inv()
      modifies this`workers, this`pending, this`timers, this`settled, this`sequence, this`forked, this`started,
               this`asked
      ensures Inv() && Extends() && (serialized ==> Quiet() && |workers| <= |old(workers)|)
    {
      ghost var before := workers;
      Await();
      if serialized { WithinIsSmaller(workers, before); }
    }

    /** Waits for one answer: callbacks run until the promise is settled, at the latest by its timer.
        A request is resolved only by its own controller, which, without other calls, is then still in
        the table. */
    method AwaitAnswer(id: nat, worker: Worker) returns (ok: bool)
      requires Inv() && id in pending && pending[id] == worker
      modifies this`workers, this`pending, this`timers, this`settled, this`sequence, this`forked, this`started,
               this`asked
      ensures Inv() && Extends() && (serialized ==> Quiet())
      ensures id !in pending && id in settled && settled[id] == ok
      ensures serialized && ok && old(Tracked(worker)) ==> Tracked(worker)
    {
      Accounting(pending, timers, settled, sequence);
      var patience: int := *;
      while id in pending
        invariant 1 <= id <= sequence
        invariant Inv() && Extends() && (serialized ==> Quiet())
        invariant serialized && old(Tracked(worker)) && (id in settled ==> settled[id]) ==> Tracked(worker)
        decreases patience
      {
        Accounting(pending, timers, settled, sequence);
        if patience <= 0 {
          Handle(TimedOut(id));
          break;
        }
        Step();
        patience := patience - 1;
      }
      ok := settled[id];
    }

    // -------------------------------------------------------------------------
    // Calls
    // -------------------------------------------------------------------------

    /** Every request is settled once and leaves no entry behind, whatever else is pending. A controller
        that answers a release well has no Gateway running. */
    method Request(worker: Worker, call: Call) returns (ok: bool)
      requires Inv() && worker.serial < forked
      modifies this`workers, this`pending, this`timers, this`settled, this`sequence, this`forked, this`started,
               this`asked
      ensures Inv() && Extends()
      ensures var id := old(sequence) + 1; id !in pending && id in settled && settled[id] == ok
      ensures old(asked) + [Asked(worker, call)] <= asked
      ensures serialized ==> asked == old(asked) + [Asked(worker, call)]
      ensures serialized ==> Within(workers, old(workers)) && pending.Keys <= old(pending).Keys
      ensures serialized ==> sequence == old(sequence) + 1 && forked == old(forked)
      ensures serialized && ok && old(Tracked(worker)) ==> Tracked(worker)
      ensures serialized ==>
                started == if call.ActivateCall? then old(started) + {worker}
                           else if call.ReleaseCall? && ok then old(started) - {worker} else old(started)
    {
      var id := Issue(worker, call);
      ok := AwaitAnswer(id, worker);
      if call.ReleaseCall? && ok { started := started - {worker}; }
    }

    method ValidateRelease(id: Release, directory: string) returns (ok: bool)
      requires Inv()
      modifies this`workers, this`pending, this`timers, this`settled, this`sequence, this`forked, this`started,
               this`asked, this`lookups
      ensures Inv() && Extends() && (ok ==> directory == dataDirectory)
      ensures serialized ==> Within(workers, old(workers)) && pending.Keys <= old(pending).Keys
      ensures lookups == old(lookups) + if directory == dataDirectory then [Lookup(id, false, ok)] else []
    {
      if directory != dataDirectory { return false; }
      Await();
      ok := Resolved(id, false);
    }

    method ValidateForwardRelease(id: Release, directory: string) returns (ok: bool)
      requires Inv()
      modifies this
      ensures Inv() && Extends()
      ensures serialized ==> Within(workers, old(workers)) && pending.Keys <= old(pending).Keys
      ensures lookups == old(lookups) +
                         if directory == dataDirectory && forwardCapable then [Lookup(id, true, ok)] else []
      ensures forwardReleases == if ok then old(forwardReleases) + {id} else old(forwardReleases)
      ensures ok ==> directory == dataDirectory && forwardCapable
    {
      if directory != dataDirectory || !forwardCapable { return false; }
      Await();
      ok := Resolved(id, true);
      if ok { forwardReleases := forwardReleases + {id}; }
    }

    /** The check that `ensureStandby` makes before it awaits anything. */
    method CheckTable(id: Release) returns (r: Verdict)
      ensures r.Present? <==> id in workers
      ensures r.Free? <==> id !in workers && |workers| < 2
    {
      r := if id in workers then Present else if |workers| >= 2 then Full else Free;
    }

    /** The answer to the next request is this one. */
    twostate predicate Answered(ok: bool)
      reads this
    {
      var k := old(sequence) + 1;
      k in settled && settled[k] == ok
    }

    /** Nothing was asked of anyone and nothing looked up. */
    twostate predicate Silent()
      reads this
    {
      asked == old(asked) && lookups == old(lookups)
    }

    /** The release, and no other, was looked up once, as the forward-only target it was validated for. */
    twostate predicate LookedUp(id: Release)
      reads this
    {
      && |lookups| == |old(lookups)| + 1 && old(lookups) <= lookups
      && lookups[|old(lookups)|].id == id && lookups[|old(lookups)|].forward == (id in forwardReleases)
    }

    /** A full table refuses another version before anything starts. With serialized calls there is never
        a third controller: one is forked exactly when the release was found, and it is asked to
        initialize. */
    method EnsureStandby(id: Release) returns (ok: bool)
      requires Inv()
      modifies this`workers, this`pending, this`timers, this`settled, this`sequence, this`forked, this`started,
               this`asked, this`lookups, this`disconnects
      ensures Inv() && Extends()
      ensures id in old(workers) ==> ok && workers == old(workers) && Silent()
      ensures id !in old(workers) && |old(workers)| >= 2 ==> !ok && workers == old(workers) && Silent()
      ensures id !in old(workers) && |old(workers)| < 2 ==> LookedUp(id) && (ok ==> lookups[|old(lookups)|].found)
      ensures serialized ==> workers.Keys <= old(workers).Keys + {id} && pending.Keys <= old(pending).Keys
      ensures serialized ==> (ok <==> id in workers) && started == old(started)
      ensures serialized && ok && id !in old(workers) ==> workers[id] == Worker(old(forked), id)
      ensures serialized ==> asked == old(asked) + Greeting(lookups[|old(lookups)|..], old(forked), id)
      ensures serialized && sequence > old(sequence) ==> Answered(ok)
    {
      var verdict := CheckTable(id);
      if !verdict.Free? { return verdict.Present?; }
      ok := AddWorker(id);
    }

    /** A controller for a release that has none, if the release is found. */
    method AddWorker(id: Release) returns (ok: bool)
      requires Inv() && id !in workers && |workers| < 2
      modifies this`workers, this`pending, this`timers, this`settled, this`sequence, this`forked, this`started,
               this`asked, this`lookups, this`disconnects
      ensures Inv() && Extends() && LookedUp(id) && (ok ==> lookups[|old(lookups)|].found)
      ensures serialized ==> workers.Keys <= old(workers).Keys + {id} && pending.Keys <= old(pending).Keys
      ensures serialized ==> (ok <==> id in workers) && started == old(started)
      ensures serialized && ok ==> workers[id] == Worker(old(forked), id)
      ensures serialized ==> asked == old(asked) + Greeting(lookups[|old(lookups)|..], old(forked), id)
      ensures serialized && sequence > old(sequence) ==> Answered(ok)
    {
      ok := LookUp(id);
      assert lookups[|old(lookups)|..] == [Lookup(id, id in forwardReleases, ok)];
      if !ok { return false; }
      ok := StartWorker(id);
    }

    method LookUp(id: Release) returns (ok: bool)
      requires Inv()
      modifies this`workers, this`pending, this`timers, this`settled, this`sequence, this`forked, this`started,
               this`asked, this`lookups
      ensures Inv() && Extends() && lookups == old(lookups) + [Lookup(id, id in forwardReleases, ok)]
      ensures serialized ==> Quiet() && |workers| <= |old(workers)|
    {
      AwaitQuietly();
      ok := Resolved(id, id in forwardReleases);
    }

    /** Whether the configuration finds the release. */
    method Resolved(id: Release, forward: bool) returns (ok: bool)
      modifies this`lookups
      ensures lookups == old(lookups) + [Lookup(id, forward, ok)]
    {
      ok := *;
      lookups := lookups + [Lookup(id, forward, ok)];
    }

    method StartWorker(id: Release) returns (ok: bool)
      requires Inv() && (serialized ==> id !in workers && |workers| < 2)
      modifies this`workers, this`pending, this`timers, this`settled, this`sequence, this`forked, this`started,
               this`asked, this`disconnects
      ensures Inv() && Extends() && Answered(ok)
      ensures disconnects == old(disconnects) + if ok then [] else [Worker(old(forked), id)]
      ensures serialized ==> workers.Keys <= old(workers).Keys + {id} && pending.Keys <= old(pending).Keys
      ensures serialized ==> (ok <==> id in workers) && started == old(started)
      ensures serialized && ok ==> workers[id] == Worker(old(forked), id)
      ensures serialized ==> asked == old(asked) + [Asked(Worker(old(forked), id), Initialize)]
    {
      PutWorker(id);
      ok := InitializeWorker(workers[id]);
    }

    /** A controller that does not initialize well is dropped again. */
    method InitializeWorker(worker: Worker) returns (ok: bool)
      requires Inv() && Tracked(worker)
      modifies this`workers, this`pending, this`timers, this`settled, this`sequence, this`forked, this`started,
               this`asked, this`disconnects
      ensures Inv() && Extends() && Answered(ok) && (!ok ==> !Tracked(worker))
      ensures disconnects == old(disconnects) + if ok then [] else [worker]
      ensures serialized ==> Within(workers, old(workers)) && (ok <==> worker.release in workers)
      ensures serialized ==> started == old(started) && pending.Keys <= old(pending).Keys
      ensures serialized ==> asked == old(asked) + [Asked(worker, Initialize)]
    {
      ok := Request(worker, Initialize);
      if !ok {
        DropWorker(worker);
        Disconnect(worker);
      }
    }

    method DropWorker(worker: Worker)
      requires Inv()
      modifies this`workers
      ensures Inv() && workers == old(Without(worker)) && !Tracked(worker)
    {
      workers := Without(worker);
    }

    /** The table entry of a forked controller. */
    method PutWorker(id: Release)
      requires Inv() && (serialized ==> id !in workers && |workers| < 2)
      modifies this`workers, this`forked
      ensures Inv() && Extends() && workers == old(workers)[id := Worker(old(forked), id)] && forked == old(forked) + 1
    {
      workers := workers[id := Worker(forked, id)];
      forked := forked + 1;
    }

    /** The release was looked up and its new controller asked to initialize and then to activate, each
        only if what came before went well. */
    twostate predicate Launched(id: Release, ok: bool)
      reads this
    {
      && LookedUp(id)
      && var k := old(sequence) + 1;
      var asking := Greeting(lookups[|old(lookups)|..], old(forked), id);
      if asking == [] then !ok && asked == old(asked)
      else if Answered(false) then !ok && asked == old(asked) + asking
      else
        && Answered(true) && k + 1 in settled && settled[k + 1] == ok
        && asked == old(asked) + asking + [Asked(Worker(old(forked), id), ActivateCall)]
    }

    method Activate(id: Release, directory: string, node: string) returns (ok: bool)
      requires Inv()
      modifies this`workers, this`pending, this`timers, this`settled, this`sequence, this`forked, this`started,
               this`asked, this`lookups, this`disconnects
      ensures Inv() && Extends()
      ensures directory != dataDirectory || node != nodeId ==> !ok && unchanged(this)
      ensures directory == dataDirectory && node == nodeId && id in old(workers) ==>
                Answered(ok) && old(asked) + [Asked(old(workers)[id], ActivateCall)] <= asked
      ensures directory == dataDirectory && node == nodeId && id !in old(workers) && |old(workers)| >= 2 ==>
                !ok && Silent()
      ensures serialized && directory == dataDirectory && node == nodeId ==>
                id in old(workers) || |old(workers)| >= 2 || Launched(id, ok)
      ensures serialized ==> pending.Keys <= old(pending).Keys
      ensures serialized && ok ==> id in workers && workers[id] in started
      ensures serialized ==> forall w :: w in started && w !in old(started) ==> w.release == id
    {
      if directory != dataDirectory || node != nodeId { return false; }
      ok := EnsureStandby(id);
      if !ok || id !in workers { return false; }
      ok := Request(workers[id], ActivateCall);
    }

    /** Retiring frees the place in the table: the exit it waits for drops the controller. */
    method RetireStandby(id: Release) returns (ok: bool)
      requires Inv()
      modifies this`workers, this`pending, this`timers, this`settled, this`sequence, this`forked, this`started,
               this`asked, this`disconnects
      ensures Inv() && Extends()
      ensures serialized ==> Within(workers, old(workers)) && pending.Keys <= old(pending).Keys
      ensures serialized ==> started <= old(started)
      ensures serialized && ok ==> id !in workers && (MayRun(id) <==> old(Orphaned(id)))
      ensures id !in old(workers) ==> ok && unchanged(this)
      ensures id in old(workers) ==> disconnects == old(disconnects) + if ok then [old(workers)[id]] else []
      ensures id in old(workers) ==> Answered(ok) && old(asked) + [Asked(old(workers)[id], ReleaseCall)] <= asked
    {
      if id !in workers { return true; }
      var worker := workers[id];
      ok := Request(worker, ReleaseCall);
      if !ok { return false; }
      AwaitExit(worker);
    }

    ghost method Disconnect(worker: Worker)
      modifies this`disconnects
      ensures disconnects == old(disconnects) + [worker]
    {
      disconnects := disconnects + [worker];
    }

    /** The exit of a disconnected controller, whose own handler drops it first. */
    method AwaitExit(worker: Worker)
      requires Inv()
      modifies this`workers, this`pending, this`timers, this`settled, this`sequence, this`forked, this`started,
               this`asked, this`disconnects
      ensures Inv() && Extends() && (serialized ==> Quiet() && !Tracked(worker))
      ensures disconnects == old(disconnects) + [worker]
    {
      Disconnect(worker);
      Await();
      FailWorker(worker);
    }

    /** What the selector relies on: a release that returns well leaves nothing of it running. This host
        meets that exactly when, before the call, no controller of the release had left the table without
        confirming one, since a release without a controller counts as released. */
    method ReleaseExecution(id: Release) returns (ok: bool)
      requires Inv()
      modifies this`workers, this`pending, this`timers, this`settled, this`sequence, this`forked, this`started,
               this`asked
      ensures Inv() && Extends()
      ensures id !in old(workers) ==> ok && unchanged(this)
      ensures id in old(workers) ==> Answered(ok) && old(asked) + [Asked(old(workers)[id], ReleaseCall)] <= asked
      ensures serialized ==> Within(workers, old(workers)) && pending.Keys <= old(pending).Keys
      ensures serialized ==> started <= old(started)
      ensures serialized && ok ==> (MayRun(id) <==> old(Orphaned(id)))
    {
      if id !in workers { return true; }
      ok := Request(workers[id], ReleaseCall);
    }

    method VerifyActive(id: Release) returns (ok: bool)
      requires Inv()
      modifies this`workers, this`pending, this`timers, this`settled, this`sequence, this`forked, this`started,
               this`asked
      ensures Inv() && Extends()
      ensures serialized ==> pending.Keys <= old(pending).Keys && started == old(started)
      ensures serialized && ok ==> id in workers
      ensures id !in old(workers) ==> !ok && unchanged(this)
      ensures id in old(workers) ==> Answered(ok) && old(asked) + [Asked(old(workers)[id], HealthCall)] <= asked
    {
      if id !in workers { return false; }
      ok := Request(workers[id], HealthCall);
    }

    /** The supervisor dies and a new host takes over: an empty table, no requests, and no word of the
        Gateways that the controllers of the old one may still be ending. */
    method Restart()
      requires Inv()
      modifies this
      ensures Inv() && Extends() && workers == map[] && pending == map[] && forwardReleases == {}
      ensures started == old(started) && sequence == old(sequence)
      ensures forall id :: MayRun(id) ==> Orphaned(id)
    {
      forwardReleases := {};
      workers := map[];
      while pending != map[]
        invariant Inv() && Extends() && workers == map[] && forwardReleases == {}
        invariant started == old(started) && sequence == old(sequence)
        decreases |pending|
      {
        Accounting(pending, timers, settled, sequence);
        var k :| k in pending;
        Finish(k, false);
      }
    }

    /** `stop`: every controller that has not exited is disconnected and its exit awaited, which drops it. */
    method Stop()
      requires Inv()
      modifies this`workers, this`pending, this`timers, this`settled, this`sequence, this`forked, this`started,
               this`asked
      ensures Inv() && Extends() && (serialized ==> Quiet() && workers == map[])
    {
      Await();
      while workers != map[]
        invariant Inv() && Extends() && (serialized ==> Quiet())
        decreases |workers|
      {
        var id :| id in workers;
        FailWorker(workers[id]);
      }
    }
  }

  datatype Operation =
    | Validate(id: Release, directory: string)
    | ValidateForward(id: Release, directory: string)
    | Standby(id: Release)
    | Start(id: Release, directory: string, node: string)
    | Retire(id: Release)
    | Release(id: Release)
    | Verify(id: Release)
    | StopAll
    | Reborn

  /** What a serialized call that ends well leaves of the table of controllers. */
  predicate Done(operation: Operation, workers: map<Release, Worker>) {
    match operation
    case Validate(_, _) => true
    case ValidateForward(_, _) => true
    case Standby(id) => id in workers
    case Start(id, _, _) => id in workers
    case Retire(id) => id !in workers
    case Release(_) => true
    case Verify(id) => id in workers
    case StopAll => workers == map[]
    case Reborn => workers == map[]
  }

  method Serve(host: GatewayExecutionWorkerHost, operation: Operation) returns (ok: bool)
    requires host.Inv()
    modifies host
    ensures host.Inv() && host.Extends()
    ensures host.serialized ==> host.pending.Keys <= old(host.pending).Keys
    ensures host.serialized && ok ==> Done(operation, host.workers)
  {
    match operation {
      case Validate(id, directory) => ok := host.ValidateRelease(id, directory);
      case ValidateForward(id, directory) => ok := host.ValidateForwardRelease(id, directory);
      case Standby(id) => ok := host.EnsureStandby(id);
      case Start(id, directory, node) => ok := host.Activate(id, directory, node);
      case Retire(id) => ok := host.RetireStandby(id);
      case Release(id) => ok := host.ReleaseExecution(id);
      case Verify(id) => ok := host.VerifyActive(id);
      case StopAll =>
        host.Stop();
        ok := true;
      case Reborn =>
        host.Restart();
        ok := true;
    }
  }

  /** Every run, whatever the callbacks, and the calls of others unless serialized, between the steps:
      each request is pending or settled once, and never both. With serialized calls there are never
      more than two controllers and no entry is left behind. */
  method Run(host: GatewayExecutionWorkerHost, operations: seq<Operation>)
    returns (results: seq<bool>, ghost tables: seq<map<Release, Worker>>)
    requires host.Inv() && (host.serialized ==> host.pending == map[])
    modifies host
    ensures host.Inv() && host.Extends()
    ensures |results| == |operations| == |tables| - 1 && tables[|operations|] == host.workers
    ensures host.serialized ==> forall i :: 0 <= i < |operations| && results[i] ==> Done(operations[i], tables[i + 1])
    ensures forall k: nat :: 1 <= k <= host.sequence <==> (k in host.pending) != (k in host.settled)
    ensures host.serialized ==> |host.workers| <= 2 && host.pending == map[] && host.timers == {}
  {
    results, tables := [], [host.workers];
    for i := 0 to |operations|
      invariant host.Inv() && host.Extends() && (host.serialized ==> host.pending == map[])
      invariant |results| == i == |tables| - 1 && tables[i] == host.workers
      invariant host.serialized ==> forall k :: 0 <= k < i && results[k] ==> Done(operations[k], tables[k + 1])
    {
      var ok := Serve(host, operations[i]);
      results, tables := results + [ok], tables + [host.workers];
    }
    Accounting(host.pending, host.timers, host.settled, host.sequence);
  }

  /** A controller that dies with its Gateway running: the release then succeeds, and the Gateway may
      run on. Only the lock on the data directory stands between it and the next release. */
  method LostController(host: GatewayExecutionWorkerHost, id: Release) returns (ok: bool)
    requires host.Inv() && id in host.workers && host.workers[id] in host.started
    modifies host
    ensures ok && host.MayRun(id) && host.Orphaned(id)
  {
    ghost var worker := host.workers[id];
    host.FailWorker(host.workers[id]);
    ok := host.ReleaseExecution(id);
    assert worker in host.started && worker.release == id && !host.Tracked(worker);
  }

  /** Two overlapping calls of `ensureStandby`, in the steps it is made of: with one controller in the
      table both pass the check, and both put their own in. */
  method OverlapOverfills(host: GatewayExecutionWorkerHost, a: Release, b: Release)
    requires host.Inv() && !host.serialized && |host.workers| == 1
    requires a !in host.workers && b !in host.workers && a != b
    modifies host
    ensures host.Inv() && |host.workers| == 3
  {
    var first := host.CheckTable(a);
    var second := host.CheckTable(b);
    if first.Free? { host.PutWorker(a); }
    if second.Free? { host.PutWorker(b); }
  }

  /** After a restart with a Gateway running, the release is reported at once and the Gateway may run on. */
  method RestartForgets(host: GatewayExecutionWorkerHost, id: Release) returns (ok: bool)
    requires host.Inv() && host.MayRun(id)
    modifies host
    ensures ok && host.MayRun(id)
  {
    host.Restart();
    ok := host.ReleaseExecution(id);
  }
}
