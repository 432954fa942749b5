/** The steps of a program path: which events of the symbolic execution count, and what they mean. */
module Paths {
  import opened Cnf
  import opened Booleans
  import opened Nfas
  import opened Unrolling

  datatype Written = Visible | Hidden | Guarding | Merging

  datatype Kind =
    | Location
    | Assignment(written: Written)
    | FunctionCall
    | Assumption
    | Assertion
    | Shared
    | Other

  /** One event; without a guard it lies on no way to the end of the path. */
  datatype Event = Event(pc: nat, kind: Kind, guard: Option<Exp>)

  /** What is known of an instruction: `always` says that a goto is unconditional. */
  datatype Instruction = Instruction(ignored: bool, isGoto: bool, always: bool, instrumented: bool,
                                     nodes: Option<set<int>>, edges: Option<seq<MappedEdge>>)

  type Program = nat -> Instruction

  // ---------- which events count ----------

  /** Which kinds of events can be steps. */
  ghost predicate OwnStep(k: Kind) {
    match k
    case Location => true
    case Assignment(Visible) => true
    case Assignment(Hidden) => false
    case Assignment(Guarding) => false
    case Assignment(Merging) => false
    case FunctionCall => true
    case Assumption => true
    case Assertion => true
    case Shared => false
    case Other => true
  }

  /** Which kinds of events the location event of the same instruction stands for. */
  ghost predicate Further(k: Kind, atGoto: bool) {
    match k
    case Location => false
    case Assignment(_) => true
    case FunctionCall => true
    case Assumption => atGoto
    case Assertion => atGoto
    case Shared => false
    case Other => false
  }

  ghost predicate Counts(code: Program, e: Event) { e.guard != None && !code(e.pc).ignored && OwnStep(e.kind) }

  predicate Relevant(code: Program, e: Event): (r: bool)
    ensures r <==> Counts(code, e)
  {
    && e.guard.Some? && !code(e.pc).ignored && e.kind != Shared
    && (e.kind.Assignment? ==> e.kind.written == Visible)
  }

  /** One instruction gives several events: `e` is a further one after its location event `head`. */
  predicate Repeats(code: Program, head: Event, e: Event): (r: bool)
    ensures r <==> head.kind == Location && Further(e.kind, code(e.pc).isGoto)
  {
    && head.kind == Location
    && (e.kind.Assignment? || e.kind == FunctionCall || (e.kind in {Assumption, Assertion} && code(e.pc).isGoto))
  }

  /** No event that counts lies between `j` and `i`. */
  ghost predicate LastBefore(code: Program, es: seq<Event>, j: nat, i: nat) {
    j < i <= |es| && Counts(code, es[j]) && forall k :: j < k < i ==> !Counts(code, es[k])
  }

  /** The events that count from `h` to `n` are of one instruction, the one before `h` is not. */
  ghost predicate Heads(code: Program, es: seq<Event>, h: nat, n: nat) {
    && h <= n < |es| && Counts(code, es[h])
    && (forall j :: h <= j <= n && Counts(code, es[j]) ==> es[j].pc == es[h].pc)
    && (forall j :: 0 <= j < h && LastBefore(code, es, j, h) ==> es[j].pc != es[h].pc)
  }

  /** An event is a step unless the first event of its run of one instruction is a location that
      stands for it. */
  ghost predicate KeptAt(code: Program, es: seq<Event>, i: nat) {
    && i < |es| && Counts(code, es[i])
    && forall h :: 0 <= h < i && Heads(code, es, h, i) ==>
         !(es[h].kind == Location && Further(es[i].kind, code(es[i].pc).isGoto))
  }

  // ---------- what the events read ----------

  /** Event `j` carries the negated condition of a goto at `i`: the next event, or the one after the
      assignment of the condition. */
  ghost predicate Behind(es: seq<Event>, i: nat, j: nat) {
    if i + 1 < |es| && es[i + 1].kind == Assignment(Guarding) then j == i + 2 else j == i + 1
  }

  ghost predicate Conditional(code: Program, e: Event) {
    code(e.pc).isGoto && e.kind == Location && !code(e.pc).always
  }

  /** The goto at location event `i` jumps: it is unconditional, or its negated condition is false. */
  ghost predicate Jumps(r: Valuation, code: Program, es: seq<Event>, i: nat)
    requires i < |es|
  {
    && code(es[i].pc).isGoto && es[i].kind == Location
    && (code(es[i].pc).always
        || exists j: nat :: Behind(es, i, j) && j < |es| && es[j].guard.Some? && !Holds(r, es[j].guard.value))
  }

  /** The mapped edge `k` is the one of the jump, or the other one. */
  ghost predicate Taken(c: Instruction, jumps: bool, k: nat)
    requires c.edges.Some?
  {
    k < |c.edges.value| && (c.isGoto ==> (c.edges.value[k].jump <==> jumps))
  }

  /** What is read at an executed instruction: a label of the edge that is taken; at an instrumented
      location perhaps nothing; nothing if that edge is not mapped.  Instructions without mapped edges
      are passed only if they are instrumented. */
  ghost predicate EdgeLabels(c: Instruction, jumps: bool, w: Symbols) {
    match c.edges
    case None => c.instrumented && w == []
    case Some(es) =>
      if exists k: nat :: Taken(c, jumps, k) then
        exists k: nat :: Taken(c, jumps, k) && ((|w| == 1 && w[0] in es[k].graphs) || (c.instrumented && w == []))
      else w == []
  }

  ghost predicate NodeLabels(c: Instruction, w: Symbols) {
    w != [] ==> c.nodes.Some? && forall l :: l in w ==> l in c.nodes.value
  }

  /** What event `i` lets an automaton read: nothing unless it is executed, else node labels and then
      what the edges let it read. */
  ghost predicate EventReads(r: Valuation, code: Program, es: seq<Event>, i: nat, w: Symbols)
    requires i < |es| && Counts(code, es[i])
  {
    var c := code(es[i].pc);
    if Holds(r, es[i].guard.value) then
      exists j :: 0 <= j <= |w| && NodeLabels(c, w[..j]) && EdgeLabels(c, Jumps(r, code, es, i), w[j..])
    else w == []
  }

  /** What the first `n` events let an automaton read. */
  ghost predicate PathReads(r: Valuation, code: Program, es: seq<Event>, n: nat, w: Symbols)
    requires n <= |es|
  {
    if n == 0 then w == []
    else if KeptAt(code, es, n - 1) then
      exists j :: 0 <= j <= |w| && PathReads(r, code, es, n - 1, w[..j]) && EventReads(r, code, es, n - 1, w[j..])
    else PathReads(r, code, es, n - 1, w)
  }

  // ---------- the steps ----------

  function ConditionAt(es: seq<Event>, i: nat): (j: nat)
    ensures Behind(es, i, j)
  {
    if i + 1 < |es| && es[i + 1].kind == Assignment(Guarding) then i + 2 else i + 1
  }

  /** The condition of a conditional goto can be read off. */
  ghost predicate JumpKnown(code: Program, es: seq<Event>, i: nat)
    requires i < |es|
  {
    Conditional(code, es[i]) ==> exists j: nat :: Behind(es, i, j) && j < |es| && es[j].guard.Some?
  }

  ghost predicate JumpsKnown(code: Program, es: seq<Event>) {
    forall i :: 0 <= i < |es| && Counts(code, es[i]) ==> JumpKnown(code, es, i)
  }

  function StepOf(code: Program, es: seq<Event>, i: nat): Step
    requires i < |es| && Counts(code, es[i]) && JumpKnown(code, es, i)
  {
    var c := code(es[i].pc);
    var jump :=
      if c.isGoto && es[i].kind == Location
      then Lnot(if c.always then Const(false) else es[ConditionAt(es, i)].guard.value)
      else Const(false);
    Step(es[i].guard.value, c.isGoto, jump, c.instrumented, c.nodes, c.edges)
  }

  /** The steps of the first `n` events. */
  ghost function Path(code: Program, es: seq<Event>, n: nat): seq<Step>
    requires n <= |es| && JumpsKnown(code, es)
  {
    if n == 0 then []
    else Path(code, es, n - 1) + (if KeptAt(code, es, n - 1) then [StepOf(code, es, n - 1)] else [])
  }

  /** A step jumps exactly where its event does. */
  lemma StepJumps(r: Valuation, code: Program, es: seq<Event>, i: nat)
    requires i < |es| && Counts(code, es[i]) && JumpKnown(code, es, i)
    ensures Holds(r, StepOf(code, es, i).jump) <==> Jumps(r, code, es, i)
  {
    hide Counts, Lnot;
    LnotHolds(r, Const(false));
    if Conditional(code, es[i]) { LnotHolds(r, es[ConditionAt(es, i)].guard.value); }
  }

  lemma StepTakes(r: Valuation, code: Program, es: seq<Event>, i: nat, w: Symbols)
    requires i < |es| && Counts(code, es[i]) && JumpKnown(code, es, i) && Holds(r, es[i].guard.value)
    ensures EdgeWord(r, StepOf(code, es, i), w) <==> EdgeLabels(code(es[i].pc), Jumps(r, code, es, i), w)
    ensures NodeWord(r, StepOf(code, es, i), w) <==> NodeLabels(code(es[i].pc), w)
  {
    hide Counts, Jumps, Lnot, Holds, Behind;
    StepJumps(r, code, es, i);
    var st, c := StepOf(code, es, i), code(es[i].pc);
    if st.edges.Some? {
      forall k: nat | k < |st.edges.value| ensures Takes(r, st, k) <==> Taken(c, Jumps(r, code, es, i), k) { }
      if TakesSome(r, st) { var k: nat :| k < |st.edges.value| && Takes(r, st, k); }
    }
  }

  /** A step reads what its event reads. */
  lemma StepReads(r: Valuation, code: Program, es: seq<Event>, i: nat, w: Symbols)
    requires i < |es| && Counts(code, es[i]) && JumpKnown(code, es, i)
    ensures StepWord(r, StepOf(code, es, i), w) <==> EventReads(r, code, es, i, w)
  {
    assert es[i].guard.Some?;
    hide Counts, Jumps, Lnot, Behind, EdgeLabels, NodeLabels, EdgeWord, NodeWord, JumpKnown;
    if Holds(r, es[i].guard.value) {
      forall v
        ensures EdgeWord(r, StepOf(code, es, i), v) <==> EdgeLabels(code(es[i].pc), Jumps(r, code, es, i), v)
        ensures NodeWord(r, StepOf(code, es, i), v) <==> NodeLabels(code(es[i].pc), v)
      {
        StepTakes(r, code, es, i, v);
      }
    } else {
      forall v ensures EdgeWord(r, StepOf(code, es, i), v) <==> v == [] { UnexecutedStep(r, StepOf(code, es, i), v); }
      forall v ensures NodeWord(r, StepOf(code, es, i), v) <==> v == [] { UnexecutedStep(r, StepOf(code, es, i), v); }
      if w == [] { assert w[..0] == [] && w[0..] == []; }
      if StepWord(r, StepOf(code, es, i), w) {
        var j :| 0 <= j <= |w| && w[..j] == [] && w[j..] == [];
        assert w == w[..j] + w[j..];
      }
    }
  }

  lemma UnexecutedStep(r: Valuation, st: Step, w: Symbols)
    requires !Holds(r, st.guard)
    ensures (EdgeWord(r, st, w) <==> w == []) && (NodeWord(r, st, w) <==> w == [])
  {
    hide Holds;
  }

  /** The steps of a path read exactly what its events read. */
  lemma {:induction false} PathWords(r: Valuation, code: Program, es: seq<Event>, n: nat, w: Symbols)
    requires n <= |es| && JumpsKnown(code, es)
    ensures Matches(r, Path(code, es, n), w) <==> PathReads(r, code, es, n, w)
    decreases n
  {
    hide KeptAt, StepWord, EventReads, StepOf, Behind, JumpKnown;
    if n > 0 {
      KeptCounts(code, es, n - 1);
      var front, steps := Path(code, es, n - 1), Path(code, es, n);
      if KeptAt(code, es, n - 1) {
        var st := StepOf(code, es, n - 1);
        assert steps[..|steps| - 1] == front && steps[|steps| - 1] == st;
        forall v ensures Matches(r, front, v) <==> PathReads(r, code, es, n - 1, v) {
          PathWords(r, code, es, n - 1, v);
        }
        forall v ensures StepWord(r, st, v) <==> EventReads(r, code, es, n - 1, v) { StepReads(r, code, es, n - 1, v); }
      } else {
        assert steps == front;
        PathWords(r, code, es, n - 1, w);
      }
    }
  }

  lemma KeptCounts(code: Program, es: seq<Event>, i: nat)
    ensures KeptAt(code, es, i) ==> i < |es| && Counts(code, es[i])
  {
  }

  // ---------- at gotos ----------

  /** The path of one executed unconditional goto reads a label of the jump edge. */
  lemma UnconditionalReads(r: Valuation, code: Program, e: Event, w: Symbols)
    requires Counts(code, e) && Holds(r, e.guard.value) && e.kind == Location
    requires var c := code(e.pc);
      c.isGoto && c.always && c.nodes.None? && !c.instrumented && c.edges.Some? && |c.edges.value| == 1
      && c.edges.value[0].jump
    ensures PathReads(r, code, [e], 1, w) <==> |w| == 1 && w[0] in code(e.pc).edges.value[0].graphs
  {
    var c := code(e.pc);
    assert KeptAt(code, [e], 0) && Jumps(r, code, [e], 0) && Taken(c, true, 0);
    assert w[..0] == [] && w[0..] == w;
    forall j | 0 <= j <= |w| && w[..j] == [] ensures w[j..] == w { }
    assert EventReads(r, code, [e], 0, w) <==> EdgeLabels(c, true, w);
  }

  /** An executed conditional goto whose two edges are mapped reads a label of the jump edge, number `k`,
      if the guard of the event behind is false, and one of the other edge if it is true. */
  lemma ConditionalReads(r: Valuation, code: Program, es: seq<Event>, i: nat, j: nat, k: nat, w: Symbols)
    requires i < |es| && Counts(code, es[i]) && Conditional(code, es[i]) && Holds(r, es[i].guard.value)
    requires Behind(es, i, j) && j < |es| && es[j].guard.Some?
    requires var c := code(es[i].pc);
      c.nodes.None? && !c.instrumented && c.edges.Some? && |c.edges.value| == 2
      && k < 2 && c.edges.value[k].jump && !c.edges.value[1 - k].jump
    ensures var labels := code(es[i].pc).edges.value[if Holds(r, es[j].guard.value) then 1 - k else k].graphs;
      EventReads(r, code, es, i, w) <==> |w| == 1 && w[0] in labels
  {
    JumpsIf(r, code, es, i, j);
    hide Holds, Jumps, Counts, Behind, Conditional;
    var c, jumps := code(es[i].pc), !Holds(r, es[j].guard.value);
    var taken := if jumps then k else 1 - k;
    assert Taken(c, jumps, taken) && forall q: nat :: Taken(c, jumps, q) ==> q == taken;
    OnlyEdges(c, jumps, w);
  }

  lemma JumpsIf(r: Valuation, code: Program, es: seq<Event>, i: nat, j: nat)
    requires i < |es| && Conditional(code, es[i]) && Behind(es, i, j) && j < |es| && es[j].guard.Some?
    ensures Jumps(r, code, es, i) <==> !Holds(r, es[j].guard.value)
  {
    hide Holds;
  }

  lemma OnlyEdges(c: Instruction, jumps: bool, w: Symbols)
    requires c.nodes.None?
    ensures (exists j :: 0 <= j <= |w| && NodeLabels(c, w[..j]) && EdgeLabels(c, jumps, w[j..])) <==>
      EdgeLabels(c, jumps, w)
  {
    hide EdgeLabels;
    assert w[..0] == [] && w[0..] == w;
    forall n | 0 <= n <= |w| && NodeLabels(c, w[..n]) ensures w[n..] == w { assert w[..n] == []; }
  }

  // ---------- the filter ----------

  lemma {:induction false} FindLast(code: Program, es: seq<Event>, j: nat, i: nat) returns (k: nat)
    requires j < i <= |es| && Counts(code, es[j])
    ensures j <= k && LastBefore(code, es, k, i)
    decreases i
  {
    k := i - 1;
    if !Counts(code, es[i - 1]) { k := FindLast(code, es, j, i - 1); }
  }

  /** A run has one first event. */
  lemma HeadUnique(code: Program, es: seq<Event>, g: nat, h: nat, n: nat)
    requires Heads(code, es, g, n) && Heads(code, es, h, n)
    ensures g == h
  {
    hide Counts;
    if g < h { var k := FindLast(code, es, g, h); }
    if h < g { var k := FindLast(code, es, h, g); }
  }

  /** An event of another instruction than the run before it starts a run, and counts. */
  lemma RunStarts(code: Program, es: seq<Event>, h: nat, i: nat)
    requires 0 < i < |es| && Heads(code, es, h, i - 1) && Counts(code, es[i]) && es[i].pc != es[h].pc
    ensures Heads(code, es, i, i) && KeptAt(code, es, i)
  {
    hide Counts, Further;
    assert Counts(code, es[h]);
    assert forall j :: 0 <= j < i && LastBefore(code, es, j, i) ==> h <= j;
    assert Heads(code, es, i, i);
    forall g: nat | Heads(code, es, g, i) ensures g == i { HeadUnique(code, es, g, i, i); }
  }

  lemma RunGoesOn(code: Program, es: seq<Event>, h: nat, i: nat)
    requires 0 < i < |es| && Heads(code, es, h, i - 1) && Counts(code, es[i]) && es[i].pc == es[h].pc
    ensures Heads(code, es, h, i) && (KeptAt(code, es, i) <==>
      !(es[h].kind == Location && Further(es[i].kind, code(es[i].pc).isGoto)))
  {
    hide Counts, Further;
    forall g: nat | Heads(code, es, g, i) ensures g == h { HeadUnique(code, es, g, h, i); }
  }

  /** Filters the events in one pass that remembers only the first event of the current run. */
  method Steps(code: Program, es: seq<Event>) returns (path: seq<Step>)
    requires JumpsKnown(code, es)
    ensures path == Path(code, es, |es|)
  {
    hide Counts, Further, Heads, KeptAt;
    path := [];
    var previous: Option<nat> := None;
    for i := 0 to |es|
      invariant path == Path(code, es, i)
      invariant previous.None? ==> forall j :: 0 <= j < i ==> !Counts(code, es[j])
      invariant previous.Some? ==> previous.value < i && Heads(code, es, previous.value, i - 1)
    {
      if !Relevant(code, es[i]) { Skipped(code, es, i, previous); continue; }
      if previous.None? || es[i].pc != es[previous.value].pc {
        if previous.Some? { RunStarts(code, es, previous.value, i); } else { FirstRun(code, es, i); }
        previous := Some(i);
      } else {
        RunGoesOn(code, es, previous.value, i);
        if Repeats(code, es[previous.value], es[i]) { continue; }
      }
      path := path + [StepOf(code, es, i)];
    }
  }

  lemma Skipped(code: Program, es: seq<Event>, i: nat, previous: Option<nat>)
    requires i < |es| && !Counts(code, es[i]) && (previous.Some? ==> 0 < i && Heads(code, es, previous.value, i - 1))
    ensures !KeptAt(code, es, i) && (previous.Some? ==> Heads(code, es, previous.value, i))
  {
    hide Counts;
  }

  lemma FirstRun(code: Program, es: seq<Event>, i: nat)
    requires i < |es| && Counts(code, es[i]) && forall j :: 0 <= j < i ==> !Counts(code, es[j])
    ensures Heads(code, es, i, i) && KeptAt(code, es, i)
  {
    hide Counts, Further;
  }
}
