/** The staged tag buffer and its generation guard (src/core/view.go, src/app/apply.go). */
module Staging {
  import opened Mail

  type Staged = map<string, seq<TagOp>>

  /** Pending ops per identity, and a generation that every stage and undo moves on. */
  datatype Buffer = Buffer(staged: Staged, gen: nat)

  function IndexOf(ops: seq<TagOp>, op: TagOp): (i: nat)
    ensures i <= |ops|
    ensures i < |ops| ==> ops[i] == op
    ensures forall k :: 0 <= k < i ==> ops[k] != op
  {
    if ops == [] || ops[0] == op then 0 else 1 + IndexOf(ops[1..], op)
  }

  /** An identical op already staged cancels it; else the op joins the end. */
  function Toggled(ops: seq<TagOp>, op: TagOp): seq<TagOp> {
    var i := IndexOf(ops, op);
    if i < |ops| then ops[..i] + ops[i + 1..] else ops + [op]
  }

  function OpsOf(b: Buffer, id: string): seq<TagOp> {
    if id in b.staged then b.staged[id] else []
  }

  function StageOp(b: Buffer, id: string, op: TagOp): Buffer {
    var ops := Toggled(OpsOf(b, id), op);
    Buffer(if ops == [] then b.staged - {id} else b.staged[id := ops], b.gen + 1)
  }

  function UndoOps(b: Buffer, id: string): Buffer {
    if id in b.staged then Buffer(b.staged - {id}, b.gen + 1) else b
  }

  /** The guard: only a snapshot of the current generation may clear. */
  function ClearOps(b: Buffer, id: string, gen: nat): Buffer {
    if b.gen != gen then b else b.(staged := b.staged - {id})
  }

  // ---- Lists ----

  predicate NoRepeats(ops: seq<TagOp>) {
    forall i, j :: 0 <= i < j < |ops| ==> ops[i] != ops[j]
  }

  /** Toggling flips whether the op is staged, keeps every other op in order, and never repeats one. */
  lemma ToggleFlips(ops: seq<TagOp>, op: TagOp)
    requires NoRepeats(ops)
    ensures NoRepeats(Toggled(ops, op))
    ensures forall o :: o in Toggled(ops, op) <==> if o == op then op !in ops else o in ops
    ensures op !in ops ==> Toggled(Toggled(ops, op), op) == ops
  {
    var i := IndexOf(ops, op);
    var now := Toggled(ops, op);
    if i < |ops| {
      forall o ensures o in now <==> o != op && o in ops {
        if o in ops && o != op {
          var k :| 0 <= k < |ops| && ops[k] == o;
          assert k < i ==> now[k] == o;
          assert k > i ==> now[k - 1] == o;
        }
      }
    } else {
      assert IndexOf(now, op) == |ops| by {
        assert now[|ops|] == op;
      }
    }
  }

  ghost predicate Sound(b: Buffer) {
    forall id <- b.staged :: b.staged[id] != [] && NoRepeats(b.staged[id])
  }

  // ---- Applies in flight ----

  /** An apply's snapshot of the buffer and the generation it was taken at. */
  datatype Flight = Flight(snapshot: Staged, gen: nat)

  /** While no stage or undo intervened, the buffer holds nothing but what the flight saw. */
  ghost predicate Guarded(b: Buffer, f: Flight) {
    f.gen <= b.gen && (f.gen == b.gen ==> forall id <- b.staged :: id in f.snapshot && f.snapshot[id] == b.staged[id])
  }

  ghost predicate AllGuarded(b: Buffer, flights: seq<Flight>) {
    forall k :: 0 <= k < |flights| ==> Guarded(b, flights[k])
  }

  datatype State = State(buffer: Buffer, flights: seq<Flight>)

  ghost predicate Valid(s: State) {
    Sound(s.buffer) && AllGuarded(s.buffer, s.flights)
  }

  /** What can happen, in any interleaving: the user stages or undoes, an apply starts, an apply
      clears an entry it wrote (or found nothing to write for). */
  datatype Step =
    | Stage(id: string, op: TagOp)
    | Undo(id: string)
    | Launch
    | Clear(flight: nat, id: string)

  function Next(s: State, step: Step): State {
    match step
    case Stage(id, op) => s.(buffer := StageOp(s.buffer, id, op))
    case Undo(id) => s.(buffer := UndoOps(s.buffer, id))
    case Launch => s.(flights := s.flights + [Flight(s.buffer.staged, s.buffer.gen)])
    case Clear(k, id) => if k < |s.flights| then s.(buffer := ClearOps(s.buffer, id, s.flights[k].gen)) else s
  }

  lemma StageSound(b: Buffer, id: string, op: TagOp)
    requires Sound(b)
    ensures Sound(StageOp(b, id, op))
  {
    ToggleFlips(OpsOf(b, id), op);
  }

  lemma ClearSound(b: Buffer, id: string, gen: nat, flights: seq<Flight>)
    requires Sound(b) && AllGuarded(b, flights)
    ensures Sound(ClearOps(b, id, gen)) && AllGuarded(ClearOps(b, id, gen), flights)
  {
    forall k | 0 <= k < |flights| ensures Guarded(ClearOps(b, id, gen), flights[k]) {
      assert Guarded(b, flights[k]);
    }
  }

  lemma BumpGuards(b: Buffer, now: Buffer, flights: seq<Flight>)
    requires AllGuarded(b, flights) && now.gen > b.gen
    ensures AllGuarded(now, flights)
  {
    forall k | 0 <= k < |flights| ensures Guarded(now, flights[k]) {
      assert Guarded(b, flights[k]);
    }
  }

  /** Every step keeps the guard, for any number of applies in flight. */
  lemma StepKeeps(s: State, step: Step)
    requires Valid(s)
    ensures Valid(Next(s, step))
  {
    match step
    case Stage(id, op) =>
      StageSound(s.buffer, id, op);
      BumpGuards(s.buffer, StageOp(s.buffer, id, op), s.flights);
    case Undo(id) =>
      if id in s.buffer.staged {
        BumpGuards(s.buffer, UndoOps(s.buffer, id), s.flights);
      }
    case Launch =>
      var f := Flight(s.buffer.staged, s.buffer.gen);
      assert Guarded(s.buffer, f);
    case Clear(k, id) =>
      if k < |s.flights| {
        ClearSound(s.buffer, id, s.flights[k].gen, s.flights);
      }
  }

  function Run(s: State, steps: seq<Step>): State {
    if steps == [] then s else Next(Run(s, steps[..|steps| - 1]), steps[|steps| - 1])
  }

  const START := State(Buffer(map[], 0), [])

  lemma {:induction false} RunValid(steps: seq<Step>)
    ensures Valid(Run(START, steps))
  {
    if steps != [] {
      RunValid(steps[..|steps| - 1]);
      StepKeeps(Run(START, steps[..|steps| - 1]), steps[|steps| - 1]);
    }
  }

  /** The ops an entry holds are never dropped unseen: over any run, a clear removes an entry only
      when its op list is exactly the one in the clearing apply's snapshot, and touches no other
      entry. So an entry whose write failed, or that changed since the snapshot, stays staged. */
  lemma NoLostOp(steps: seq<Step>, k: nat, id: string)
    ensures var s := Run(START, steps); var now := Next(s, Clear(k, id));
            && (forall other :: other != id ==> (other in now.buffer.staged <==> other in s.buffer.staged))
            && (forall other <- now.buffer.staged :: now.buffer.staged[other] == s.buffer.staged[other])
            && (id in s.buffer.staged && id !in now.buffer.staged ==>
                  k < |s.flights| && id in s.flights[k].snapshot && s.buffer.staged[id] == s.flights[k].snapshot[id])
  {
    RunValid(steps);
    var s := Run(START, steps);
    if k < |s.flights| {
      assert Guarded(s.buffer, s.flights[k]);
    }
  }

  /** Once the user touched the buffer, no apply launched before can clear anything. */
  lemma {:induction false} TouchedIsSafe(steps: seq<Step>, more: seq<Step>, k: nat, id: string)
    requires var s := Run(START, steps); k < |s.flights| && s.flights[k].gen < s.buffer.gen
    ensures var s := Run(Run(START, steps), more); k < |s.flights| && Next(s, Clear(k, id)) == s
  {
    RunValid(steps);
    GenerationsGrow(Run(START, steps), more);
  }

  lemma {:induction false} GenerationsGrow(s: State, more: seq<Step>)
    ensures Run(s, more).buffer.gen >= s.buffer.gen
    ensures |Run(s, more).flights| >= |s.flights| && forall k :: 0 <= k < |s.flights| ==> Run(s, more).flights[k] == s.flights[k]
  {
    if more != [] {
      GenerationsGrow(s, more[..|more| - 1]);
    }
  }

  lemma {:induction false} RunAppend(s: State, a: seq<Step>, step: Step)
    ensures Run(s, a + [step]) == Next(Run(s, a), step)
  {
    assert (a + [step])[..|a|] == a;
  }

  lemma {:induction false} RunConcat(s: State, a: seq<Step>, b: seq<Step>)
    ensures Run(s, a + b) == Run(Run(s, a), b)
  {
    if b == [] {
      assert a + b == a;
    } else {
      assert (a + b)[..|a + b| - 1] == a + b[..|b| - 1];
      RunConcat(s, a, b[..|b| - 1]);
    }
  }

  /** Nothing but the one apply's clears, of exactly these entries. */
  predicate Clears(steps: seq<Step>, flight: nat, ids: set<string>) {
    && (forall k :: 0 <= k < |steps| ==> steps[k].Clear? && steps[k].flight == flight && steps[k].id in ids)
    && (forall id <- ids :: Clear(flight, id) in steps)
  }

  lemma ClearsStep(steps: seq<Step>, flight: nat, ids: set<string>, id: string)
    requires id !in ids
    ensures Clears(steps, flight, ids) ==> Clears(steps + [Clear(flight, id)], flight, ids + {id})
  {
    assert (steps + [Clear(flight, id)])[|steps|] == Clear(flight, id);
  }

  /** An undisturbed apply takes out exactly the entries it clears. */
  lemma {:induction false} ClearsRun(s: State, steps: seq<Step>, flight: nat, ids: set<string>)
    requires Clears(steps, flight, ids) && flight < |s.flights| && s.flights[flight].gen == s.buffer.gen
    ensures Run(s, steps) == s.(buffer := Buffer(s.buffer.staged - ids, s.buffer.gen))
  {
    if steps == [] {
      assert ids == {};
    } else {
      var front, id := steps[..|steps| - 1], steps[|steps| - 1].id;
      var before := set k | 0 <= k < |front| :: front[k].id;
      assert Clears(front, flight, before) by {
        forall x | x in before ensures Clear(flight, x) in front {
          var k :| 0 <= k < |front| && front[k].id == x;
          assert front[k] == steps[k];
        }
      }
      ClearsRun(s, front, flight, before);
      assert before + {id} == ids by {
        forall x | x in ids ensures x in before + {id} {
          var k :| 0 <= k < |steps| && steps[k] == Clear(flight, x);
          assert k < |front| ==> front[k].id == x;
        }
      }
      assert s.buffer.staged - before - {id} == s.buffer.staged - ids;
    }
  }
}
