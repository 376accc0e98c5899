/** From passes to files: the file written during a pass is that of the pass's output, and another
    pass would write the same file. */
module PassOutput {
  import opened Bytes
  import opened Symbols
  import opened Pass
  import opened PassFixpoint
  import opened OutputImage
  import opened OutputWriter

  /** The writer is where the pass is. */
  ghost predicate Mirrors(o: Output, st: State)
    reads o
  {
    && o.redo == st.redo && o.fisClear == st.fisclear && o.orgFill == st.orgFill && !o.csegBss
    && o.csegOrg == st.org && o.csegUnknown == st.orgUnknown && o.trace == st.out
  }

  /** generate does to the file what Generate does to the output of a pass. Only in formats 1 and 3, and
      only where the origin went back, it gives up. */
  method GenerateInPass(o: Output, ghost st: State, bytes: seq<byte>) returns (ok: bool)
    requires o.Valid() && Mirrors(o, st)
    modifies o`redo, o`fisClear, o`csegOrg, o`org, o`seekBack, o`segLen, o`trace, o.file
    ensures ok ==> o.Valid() && Mirrors(o, Generate(st, bytes))
    ensures !ok ==> !o.format.FormatRas? && st.redo == 0 && !st.fisclear && st.out != [] && st.org < EndOf(st.out)
  {
    ok := o.Generate(bytes);
  }

  /** Hunks do not depend on the fillers. */
  lemma {:induction false} SameHunks(a: seq<Chunk>, b: seq<Chunk>)
    requires SameOutput(a, b)
    ensures HunksOf(a) == HunksOf(b)
  {
    if a != [] {
      SameHunks(Front(a), Front(b));
    }
  }

  /** A gap is crossed in front of this output. */
  predicate GapAt(trace: seq<Chunk>, i: int) {
    0 < i < |trace| && Piece(trace[i - 1]).End() < trace[i].addr
  }

  ghost predicate SameGaps(a: seq<Chunk>, b: seq<Chunk>) {
    forall i :: GapAt(a, i) && i < |b| ==> a[i].fill == b[i].fill
  }

  /** The bodies of formats 1 and 3 are the same just if each gap has the same filler. */
  lemma {:induction false} BodiesAgree(a: seq<Chunk>, b: seq<Chunk>)
    requires SameOutput(a, b)
    ensures |Body(a)| == |Body(b)|
    ensures Body(a) == Body(b) <==> SameGaps(a, b)
  {
    if |a| > 1 {
      var (fa, fb, ca, cb) := (Front(a), Front(b), Last(a), Last(b));
      BodiesAgree(fa, fb);
      var gap := if ca.addr - EndOf(fa) < 0 then 0 else ca.addr - EndOf(fa);
      assert Piece(a[|a| - 2]).End() == EndOf(fa) == EndOf(fb);
      PartsAgree(Body(fa), Body(fb), Repeat(ca.fill, gap), Repeat(cb.fill, gap), ca.bytes);
      RepeatsAgree(ca.fill, cb.fill, gap);
      GapsSplit(a, b);
    }
  }

  lemma PartsAgree(a: seq<byte>, b: seq<byte>, x: seq<byte>, y: seq<byte>, z: seq<byte>)
    requires |a| == |b| && |x| == |y|
    ensures a + x + z == b + y + z <==> a == b && x == y
  {
    if a + x + z == b + y + z {
      assert a == (a + x + z)[..|a|] && b == (b + y + z)[..|b|];
      assert x == (a + x + z)[|a|..|a| + |x|] && y == (b + y + z)[|b|..|b| + |y|];
    }
  }

  lemma RepeatsAgree(x: byte, y: byte, n: nat)
    ensures Repeat(x, n) == Repeat(y, n) <==> n == 0 || x == y
  {
    if n > 0 && Repeat(x, n) == Repeat(y, n) {
      assert Repeat(x, n)[0] == Repeat(y, n)[0];
    }
  }

  lemma GapsSplit(a: seq<Chunk>, b: seq<Chunk>)
    requires SameOutput(a, b) && |a| > 1
    ensures SameGaps(a, b) <==>
              SameGaps(Front(a), Front(b)) && (GapAt(a, |a| - 1) ==> a[|a| - 1].fill == b[|a| - 1].fill)
  {
    var (fa, fb) := (Front(a), Front(b));
    assert forall i :: 0 < i < |fa| ==> GapAt(a, i) == GapAt(fa, i);
    if SameGaps(a, b) {
      forall i | GapAt(fa, i) && i < |fb| ensures fa[i].fill == fb[i].fill {
        assert GapAt(a, i);
      }
    }
    if SameGaps(fa, fb) && (GapAt(a, |a| - 1) ==> a[|a| - 1].fill == b[|a| - 1].fill) {
      forall i | GapAt(a, i) && i < |b| ensures a[i].fill == b[i].fill {
        if i < |fa| {
          assert GapAt(fa, i);
        }
      }
    }
  }

  /** Another pass would write the same file as a pass that asks for no other: always in format 2, and in
      formats 1 and 3 just if OrgFill is as it was at the beginning, or no gap is crossed before the first
      ORG that sets it. */
  lemma ResolvedPassWritesTheFile(format: Format, syms: Table, org: int, orgFill: byte, prog: seq<Line>, cpu: Processor,
                                  labels: set<string>)
    requires ProgramOk(prog) && Resolved(StartPass(syms, org, orgFill), prog, cpu, labels)
    ensures var start := StartPass(syms, org, orgFill);
            var first := Run(start, prog, cpu);
            var second := Run(NextPass(first), prog, cpu);
            Finished(format, first.out) == Finished(format, second.out) <==>
              || format.FormatRas? || first.orgFill == orgFill
              || forall i :: GapAt(first.out, i) ==> i >= Unfilled(start, prog, cpu)
  {
    hide Run, ProgramOk, Resolved, HunksOf, Body, Unfilled, NextPass;
    FillersAgreeExactly(syms, org, orgFill, prog, cpu, labels);
    var start := StartPass(syms, org, orgFill);
    var first := Run(start, prog, cpu);
    var second := Run(NextPass(first), prog, cpu);
    SameHunks(first.out, second.out);
    BodiesAgree(first.out, second.out);
    FilesAgree(format, first.out, second.out);
  }

  lemma FilesAgree(format: Format, a: seq<Chunk>, b: seq<Chunk>)
    requires SameOutput(a, b) && HunksOf(a) == HunksOf(b)
    ensures Finished(format, a) == Finished(format, b) <==> format.FormatRas? || Body(a) == Body(b)
  {
    if a != [] && format.FormatDefault? {
      assert Body(a) == Finished(format, a)[2..] && Body(b) == Finished(format, b)[2..];
    }
  }
}
