/** The pass loop (nextpass in MainShadow of src/main.c): which passes it makes, and what it then says. */
module PassLoop {
  import opened Pass

  datatype Verdict = Assembled | NotResolvable | TooManyPasses | Died

  /** The state before pass i, if the loop goes on as long as that. */
  function StartOf(start: State, prog: seq<Line>, cpu: Processor, i: nat): State
    requires ProgramOk(prog)
  {
    if i == 0 then start else NextPass(Run(StartOf(start, prog, cpu, i - 1), prog, cpu))
  }

  /** The state after pass i. */
  function EndOf(start: State, prog: seq<Line>, cpu: Processor, i: nat): State
    requires ProgramOk(prog)
  {
    Run(StartOf(start, prog, cpu, i), prog, cpu)
  }

  /** Two passes ask for another one in the same way. */
  predicate Agree(a: State, b: State) {
    a.redo == b.redo && a.why == b.why && a.redoEval == b.redoEval
  }

  /** Pass i asks for another one, and not in the same way as the pass before it. */
  ghost predicate GoesOn(start: State, prog: seq<Line>, cpu: Processor, i: nat)
    requires ProgramOk(prog)
  {
    var r := EndOf(start, prog, cpu, i);
    !r.fault && r.redo > 0 && (i > 0 ==> !Agree(EndOf(start, prog, cpu, i - 1), r))
  }

  /** Pass k is made: the first one always is. */
  ghost predicate Makes(start: State, prog: seq<Line>, cpu: Processor, maxPasses: nat, k: nat)
    requires ProgramOk(prog)
  {
    (k == 0 || k < maxPasses) && forall i: nat :: i < k ==> GoesOn(start, prog, cpu, i)
  }

  /** Pass k is the last one, with this outcome. */
  ghost predicate Ends(start: State, prog: seq<Line>, cpu: Processor, maxPasses: nat, k: nat, verdict: Verdict)
    requires ProgramOk(prog)
  {
    var r := EndOf(start, prog, cpu, k);
    && Makes(start, prog, cpu, maxPasses, k)
    && match verdict
       case Died => r.fault
       case Assembled => !r.fault && r.redo == 0
       case NotResolvable => !r.fault && r.redo > 0 && k > 0 && Agree(EndOf(start, prog, cpu, k - 1), r)
       case TooManyPasses => GoesOn(start, prog, cpu, k) && k + 1 >= maxPasses
  }

  /** The loop has one last pass and one outcome. */
  lemma OneEnd(start: State, prog: seq<Line>, cpu: Processor, maxPasses: nat, j: nat, v: Verdict, k: nat, w: Verdict)
    requires ProgramOk(prog)
    requires Ends(start, prog, cpu, maxPasses, j, v) && Ends(start, prog, cpu, maxPasses, k, w)
    ensures j == k && v == w
  {
    hide EndOf, Agree;
    assert j < k ==> GoesOn(start, prog, cpu, j);
    assert k < j ==> GoesOn(start, prog, cpu, k);
  }

  /** Pass k asks for no other, no pass before it died, and no two passes in a row before it agree. */
  ghost predicate Resolves(start: State, prog: seq<Line>, cpu: Processor, maxPasses: nat, k: nat)
    requires ProgramOk(prog)
  {
    && (k == 0 || k < maxPasses)
    && EndOf(start, prog, cpu, k).redo == 0 && !EndOf(start, prog, cpu, k).fault
    && (forall i: nat :: i < k ==> !EndOf(start, prog, cpu, i).fault)
    && (forall i: nat {:trigger EndOf(start, prog, cpu, i)} ::
          i + 1 < k ==> !Agree(EndOf(start, prog, cpu, i), EndOf(start, prog, cpu, i + 1)))
  }

  /** A source is assembled just if some pass among those allowed resolves it. */
  lemma AssembledExactly(start: State, prog: seq<Line>, cpu: Processor, maxPasses: nat, k: nat, verdict: Verdict)
    requires ProgramOk(prog) && Ends(start, prog, cpu, maxPasses, k, verdict)
    ensures verdict.Assembled? <==> exists j :: Resolves(start, prog, cpu, maxPasses, j)
  {
    hide EndOf, Agree;
    if verdict.Assembled? {
      forall i: nat | i + 1 < k ensures !Agree(EndOf(start, prog, cpu, i), EndOf(start, prog, cpu, i + 1)) {
        assert GoesOn(start, prog, cpu, i + 1);
      }
      forall i: nat | i < k ensures !EndOf(start, prog, cpu, i).fault {
        assert GoesOn(start, prog, cpu, i);
      }
      assert Resolves(start, prog, cpu, maxPasses, k);
    }
    if j: nat :| Resolves(start, prog, cpu, maxPasses, j) {
      ResolvesEnds(start, prog, cpu, maxPasses, k, verdict, j);
    }
  }

  lemma ResolvesEnds(start: State, prog: seq<Line>, cpu: Processor, maxPasses: nat, k: nat, verdict: Verdict, j: nat)
    requires ProgramOk(prog)
    requires Ends(start, prog, cpu, maxPasses, k, verdict) && Resolves(start, prog, cpu, maxPasses, j)
    ensures verdict.Assembled?
  {
    hide EndOf, Agree;
    assert j < k ==> GoesOn(start, prog, cpu, j);
    if 0 < k < j {
      var i := k - 1;
      assert !Agree(EndOf(start, prog, cpu, i), EndOf(start, prog, cpu, i + 1));
    }
  }

  /** What the other outcomes mean. */
  lemma FailuresMean(start: State, prog: seq<Line>, cpu: Processor, maxPasses: nat, k: nat, verdict: Verdict)
    requires ProgramOk(prog) && Ends(start, prog, cpu, maxPasses, k, verdict)
    ensures verdict.NotResolvable? ==>
              k > 0 && Agree(EndOf(start, prog, cpu, k - 1), EndOf(start, prog, cpu, k))
              && EndOf(start, prog, cpu, k).redo > 0
    ensures verdict.TooManyPasses? ==>
              k + 1 == (if maxPasses == 0 then 1 else maxPasses)
              && forall i: nat :: i <= k ==> EndOf(start, prog, cpu, i).redo > 0
    ensures verdict.Died? <==> EndOf(start, prog, cpu, k).fault
  {
    hide EndOf, Agree;
    if verdict.TooManyPasses? {
      forall i: nat | i <= k ensures EndOf(start, prog, cpu, i).redo > 0 {
        assert GoesOn(start, prog, cpu, i);
      }
    }
  }
}
