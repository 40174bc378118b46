/**
  The write-coalescing save protocol of lib/server.js (`saveData` and the
  completion callback of its file write).

  Two flags, `writing` and `needsRewrite`, ensure that at most one write of the
  data file is in flight. A save requested while a write is in flight only
  records that another write is needed; when the write completes successfully
  exactly one follow-up write is issued; when it fails, both flags are cleared
  and the pending rewrite is dropped (the log message announces a retry that
  the code never schedules).

  The protocol is given first as pure step functions over the two flags, with
  lemmas about whole traces of save requests and write completions, and then
  as the class `Saver` whose methods update the flags in place.
*/
module Persistence {

  /** The two flags of the save protocol. */
  datatype SaveState = SaveState(writing: bool, needsRewrite: bool)

  /** No write in flight and none pending. */
  const Idle := SaveState(false, false)

  /** The flags after a step, and whether the step started a file write. */
  datatype SaveResult = SaveResult(state: SaveState, issued: bool)

  /** A call of `saveData`. */
  function OnSave(s: SaveState): (r: SaveResult)
    ensures r.state == SaveState(true, s.writing || s.needsRewrite)
    ensures r.issued <==> !s.writing
  {
    if s.writing then SaveResult(s.(needsRewrite := true), false)
    else SaveResult(s.(writing := true), true)
  }

  /** The completion callback of a file write; `ok` is false when the write failed. */
  function OnComplete(s: SaveState, ok: bool): (r: SaveResult)
    ensures r.issued <==> ok && s.needsRewrite
    ensures r.state == if r.issued then SaveState(true, false) else Idle
  {
    // Both flags are cleared before anything else happens.
    if ok && s.needsRewrite then OnSave(Idle) else SaveResult(Idle, false)
  }

  /** What can happen to the protocol: a save request, or a write finishing. */
  datatype Event = SaveCalled | WriteFinished(ok: bool)

  /**
    The protocol together with its environment: the flags, the number of file
    writes in flight, and the number of writes issued so far.
  */
  datatype Sys = Sys(state: SaveState, inFlight: nat, issued: nat)

  function Started(r: SaveResult): nat
  {
    if r.issued then 1 else 0
  }

  /** One event; a completion arrives only for a write that is in flight. */
  function Step(sys: Sys, e: Event): (r: Sys)
    ensures sys.issued <= r.issued <= sys.issued + 1
    ensures r.issued == sys.issued + 1 ==> r.state.writing && r.inFlight == sys.inFlight + (if e.SaveCalled? then 1 else 0)
    ensures e.WriteFinished? && sys.inFlight == 0 ==> r == sys
  {
    match e
    case SaveCalled =>
      var r := OnSave(sys.state);
      Sys(r.state, sys.inFlight + Started(r), sys.issued + Started(r))
    case WriteFinished(ok) =>
      if sys.inFlight == 0 then sys
      else
        var r := OnComplete(sys.state, ok);
        Sys(r.state, sys.inFlight - 1 + Started(r), sys.issued + Started(r))
  }

  /** The system after a sequence of events; each event starts at most one write. */
  function Run(sys: Sys, events: seq<Event>): (r: Sys)
    ensures sys.issued <= r.issued <= sys.issued + |events|
    decreases |events|
  {
    if events == [] then sys else Run(Step(sys, events[0]), events[1..])
  }

  /** `n` consecutive save requests. */
  function Saves(n: nat): (r: seq<Event>)
    ensures |r| == n
    ensures forall i :: 0 <= i < n ==> r[i] == SaveCalled
  {
    if n == 0 then [] else [SaveCalled] + Saves(n - 1)
  }

  /** The protocol invariant: exactly one write in flight while `writing`, none otherwise. */
  predicate OneInFlight(sys: Sys)
  {
    && sys.inFlight == (if sys.state.writing then 1 else 0)
    && (sys.state.needsRewrite ==> sys.state.writing)
  }

  lemma StepKeepsOneInFlight(sys: Sys, e: Event)
    requires OneInFlight(sys)
    ensures OneInFlight(Step(sys, e))
    ensures Step(sys, e).issued <= sys.issued + 1
  {
  }

  /** From any state satisfying the invariant, no trace ever has two writes in flight. */
  lemma {:induction false} AtMostOneWriteInFlight(sys: Sys, events: seq<Event>)
    requires OneInFlight(sys)
    ensures OneInFlight(Run(sys, events))
    ensures Run(sys, events).inFlight <= 1
    decreases |events|
  {
    if events != [] {
      StepKeepsOneInFlight(sys, events[0]);
      AtMostOneWriteInFlight(Step(sys, events[0]), events[1..]);
    }
  }

  lemma {:induction false} RunAppend(sys: Sys, a: seq<Event>, b: seq<Event>)
    ensures Run(sys, a + b) == Run(Run(sys, a), b)
    decreases |a|
  {
    if a != [] {
      assert (a + b)[0] == a[0];
      assert (a + b)[1..] == a[1..] + b;
      RunAppend(Step(sys, a[0]), a[1..], b);
    } else {
      assert a + b == b;
    }
  }

  /** While a write is in flight, saves issue no write and only set `needsRewrite`. */
  lemma {:induction false} SavesWhileWriting(sys: Sys, n: nat)
    requires OneInFlight(sys) && sys.state.writing
    ensures Run(sys, Saves(n)) == Sys(SaveState(true, sys.state.needsRewrite || n > 0), sys.inFlight, sys.issued)
    decreases n
  {
    if n > 0 {
      assert Saves(n)[0] == SaveCalled;
      assert Saves(n)[1..] == Saves(n - 1);
      SavesWhileWriting(Step(sys, SaveCalled), n - 1);
    }
  }

  /**
    Coalescing: any number of saves during one write, followed by that write's
    completion, cause at most one further write. It is issued exactly when the
    write succeeded and a rewrite was pending; a failed write drops it.
  */
  lemma BurstCoalesces(sys: Sys, n: nat, ok: bool)
    requires OneInFlight(sys) && sys.state.writing
    ensures var pending := sys.state.needsRewrite || n > 0;
            var after := Run(sys, Saves(n) + [WriteFinished(ok)]);
            && after.issued == sys.issued + (if ok && pending then 1 else 0)
            && after.inFlight == (if ok && pending then 1 else 0)
            && !after.state.needsRewrite
  {
    RunAppend(sys, Saves(n), [WriteFinished(ok)]);
    SavesWhileWriting(sys, n);
  }

  /**
    The flags of `saveData` as fields updated in place. `written` records the
    snapshot serialised by every write issued so far: the store is one shared
    object, so a follow-up write captures the store as it is when the earlier
    write completes.
  */
  class Saver<T> {
    var writing: bool
    var needsRewrite: bool
    ghost var written: seq<T>

    ghost predicate Valid()
      reads this
    {
      needsRewrite ==> writing
    }

    function State(): SaveState
      reads this
    {
      SaveState(writing, needsRewrite)
    }

    constructor ()
      ensures Valid() && State() == Idle && written == []
    {
      writing, needsRewrite := false, false;
      written := [];
    }

    /** `saveData`: returns whether a file write of `snapshot` was started. */
    method Save(snapshot: T) returns (issued: bool)
      requires Valid()
      modifies this
      ensures Valid()
      ensures SaveResult(State(), issued) == OnSave(old(State()))
      ensures written == if issued then old(written) + [snapshot] else old(written)
    {
      if writing {
        needsRewrite := true;
        issued := false;
        return;
      }
      writing := true;
      issued := true;
      written := written + [snapshot];
    }

    /**
      The callback of a file write; `current` is the store at that moment,
      which a follow-up write serialises.
    */
    method Complete(ok: bool, current: T) returns (issued: bool)
      requires Valid()
      modifies this
      ensures Valid()
      ensures SaveResult(State(), issued) == OnComplete(old(State()), ok)
      ensures written == if issued then old(written) + [current] else old(written)
    {
      var doesNeedRewrite := needsRewrite;
      writing, needsRewrite := false, false;
      issued := false;
      if !ok {
        // The failure is logged; no retry is scheduled.
      } else if doesNeedRewrite {
        issued := Save(current);
      }
    }
  }
}
