/** The guard on run lengths in BZ2_decompress: no run length overflows an Int32, whatever the input. */
module RunGuard {
  import opened BlockParser
  import opened ParserBounds
  import opened MoveToFront
  import opened MtfCoding
  import opened Words

  /** es stays below twice what the next digit counts, and that is bounded by the guard. */
  ghost predicate RunFits(p: Parser) {
    p.inRun ==> 1 <= p.N <= 2 * RUNLIMIT && -1 <= p.es <= 2 * p.N - 3
  }

  lemma BegunFits(p: Parser)
    requires RunFits(p)
    ensures RunFits(BeginSymbol(p))
  {
    hide BlockParser.Least;
  }

  lemma SymbolFits(p: Parser, sym: nat)
    requires RunFits(p) && InData(p)
    ensures RunFits(Symbol(p, sym))
  {
    hide AlphaSize, BeginSymbol, Unseq, Repeat, BlockMax;
    if sym == RUNA || sym == RUNB {
      var q := if p.inRun then p else p.(inRun := true, es := -1, N := 1);
      if q.N < RUNLIMIT {
        BegunFits(q.(es := q.es + (sym + 1) * q.N, N := 2 * q.N));
      }
    } else {
      var q := EndRun(p);
      if sym - 1 < |q.list| {
        var uc := q.list[sym - 1];
        BegunFits(q.(list := [uc] + q.list[..sym - 1] + q.list[sym..], out := q.out + [Unseq(q, uc)]));
      }
    }
  }

  lemma CodingFits(p: Parser, v: nat)
    requires RunFits(p) && p.at == Coding2
    ensures RunFits(HeaderStep(p, v))
  {
    hide AlphaSize, BeginSymbol;
    var q := p.(len := p.len + [p.curr]);
    var r := q.(lens := q.lens + [q.len], len := []);
    BegunFits(r.(groupNo := -1, groupPos := 0, inRun := false, es := 0, N := 0, list := Identity(256), out := []));
  }

  lemma OtherFits(p: Parser, v: nat)
    requires RunFits(p) && !InData(p) && p.at != Coding2
    ensures RunFits(HeaderStep(p, v))
  {
    hide AlphaSize, UndoSelectors, NextUsed16, Identity;
  }

  lemma StepFits(p: Parser, v: nat)
    requires RunFits(p)
    ensures RunFits(Step(p, v))
  {
    if InData(p) {
      StepIsCheck(p, v);
      hide Step, Symbol, SymbolAt, LimitAt;
      var q := p.(zvec := if p.at == MtfFirst then v else 2 * p.zvec + v);
      var r := SymbolAt(Table(q), q.zn, q.zvec);
      if r.Found? {
        SymbolFits(q, r.sym);
      }
    } else {
      StepIsHeader(p, v);
      hide Step, HeaderStep;
      if p.at == Coding2 {
        CodingFits(p, v);
      } else {
        OtherFits(p, v);
      }
    }
  }

  /** Whatever the input, es and es + 1 are Int32 values: es is at least -1 and below 2^23. */
  lemma {:induction false} RunsFit(p: Parser, bits: seq<bool>)
    requires RunFits(p)
    ensures RunFits(Drive(p, bits).0)
    ensures Drive(p, bits).0.inRun ==> -1 <= Drive(p, bits).0.es < 0x80_0000
    decreases |bits|
  {
    hide Step;
    var n := Need(p);
    if n != 0 && |bits| >= n {
      StepFits(p, Val(bits[..n]));
      RunsFit(Step(p, Val(bits[..n])), bits[n..]);
    }
  }
}
