/** `Boll`: Bollinger bands. The middle band is the simple moving average of
    the typical price. The function body as written also reads `stdev` on the
    line that assigns a local of that name, which Python rejects; the second
    half of this module models the name resolution that makes it fail. */
module Boll {
  import opened Series
  import opened Rolling
  import opened SimpleStats

  /** `middle = SMA(typicalPrice, period)`. */
  function MiddleBand(high: seq<real>, low: seq<real>, close: seq<real>, period: nat): (m: seq<Val>)
    requires |low| == |high| && |close| == |high| && 1 <= period <= |high|
    ensures |m| == |high|
    ensures forall i :: 0 <= i < period - 1 ==> m[i] == Undef
    ensures forall i :: period - 1 <= i < |high| ==> m[i].Num?
  {
    Sma(Typical(high, low, close), period)
  }

  /** When every close lies within its step's high and low, the middle band at
      `i` lies between the lowest low and the highest high of the window ending
      there. */
  lemma MiddleWithinPriceRange(high: seq<real>, low: seq<real>, close: seq<real>, period: nat, i: nat)
    requires |low| == |high| && |close| == |high| && 1 <= period <= |high|
    requires forall t :: 0 <= t < |high| ==> low[t] <= close[t] <= high[t]
    requires period - 1 <= i < |high|
    ensures MinOf(Trailing(low, period, i)) <= MiddleBand(high, low, close, period)[i].v <= MaxOf(Trailing(high, period, i))
  {
    var tp := Typical(high, low, close);
    var w := Trailing(tp, period, i);
    var lo, hi := MinOf(Trailing(low, period, i)), MaxOf(Trailing(high, period, i));
    forall j | 0 <= j < |w|
      ensures lo <= w[j] <= hi
    {
      var t := i - period + 1 + j;
      assert w[j] == tp[t];
      assert Trailing(low, period, i)[j] == low[t];
      assert Trailing(high, period, i)[j] == high[t];
    }
    MeanWithin(w, lo, hi);
  }

  // ---------------------------------------------------------------------------
  // Name resolution in a Python function body

  /** One assignment statement: the name it binds and the names it reads (its
      operands). */
  datatype Assignment<N> = Assignment(target: N, operands: seq<N>)

  /** How running a straight-line body ends. */
  datatype Outcome<N> = Completed | UnboundLocal(name: N) | Unresolved(name: N)

  /** The names a body assigns. Every one of them is local to the whole body:
      Python decides this when it compiles the function, not when the
      assignment runs. */
  function Targets<N>(body: seq<Assignment<N>>): (s: set<N>)
    ensures forall k :: 0 <= k < |body| ==> body[k].target in s
    ensures forall x :: x in s ==> exists k :: 0 <= k < |body| && body[k].target == x
  {
    set k | 0 <= k < |body| :: body[k].target
  }

  /** The first failing read among `operands[j..]`, given the names bound so
      far: a local name read before it is bound raises `UnboundLocalError`; a
      name that is neither local nor global is unresolved. */
  function CheckReads<N>(operands: seq<N>, j: nat, locals: set<N>, bound: set<N>, globals: set<N>): Outcome<N>
    requires j <= |operands|
    decreases |operands| - j
  {
    if j == |operands| then Completed
    else
      var x := operands[j];
      if x in locals && x !in bound then UnboundLocal(x)
      else if x !in locals && x !in globals then Unresolved(x)
      else CheckReads(operands, j + 1, locals, bound, globals)
  }

  /** Runs the statements from the `i`-th on; each statement reads its
      operands, then binds its target. */
  function Run<N>(body: seq<Assignment<N>>, i: nat, locals: set<N>, bound: set<N>, globals: set<N>): Outcome<N>
    requires i <= |body|
    decreases |body| - i
  {
    if i == |body| then Completed
    else
      var check := CheckReads(body[i].operands, 0, locals, bound, globals);
      if check != Completed then check
      else Run(body, i + 1, locals, bound + {body[i].target}, globals)
  }

  /** Calls a function: its parameters are bound and local on entry. */
  function Call<N>(params: set<N>, body: seq<Assignment<N>>, globals: set<N>): Outcome<N>
  {
    Run(body, 0, params + Targets(body), params, globals)
  }

  /** A name resolves when it is bound, or when it is no local and is global. */
  predicate Resolves<N>(x: N, locals: set<N>, bound: set<N>, globals: set<N>)
  {
    x in bound || (x !in locals && x in globals)
  }

  /** Reading only names that resolve passes the check. */
  lemma {:induction false} ResolvingReadsPass<N>(operands: seq<N>, j: nat, locals: set<N>, bound: set<N>, globals: set<N>)
    requires j <= |operands|
    requires bound <= locals
    requires forall k :: j <= k < |operands| ==> Resolves(operands[k], locals, bound, globals)
    ensures CheckReads(operands, j, locals, bound, globals) == Completed
    decreases |operands| - j
  {
    if j < |operands| {
      ResolvingReadsPass(operands, j + 1, locals, bound, globals);
    }
  }

  /** Reading a local name that is not yet bound makes the check fail. */
  lemma {:induction false} ReadOfUnboundFails<N>(operands: seq<N>, j: nat, locals: set<N>, bound: set<N>, globals: set<N>, k: nat)
    requires j <= k < |operands|
    requires operands[k] in locals && operands[k] !in bound
    ensures CheckReads(operands, j, locals, bound, globals) != Completed
    decreases k - j
  {
    if j < k {
      ReadOfUnboundFails(operands, j + 1, locals, bound, globals, k);
    }
  }

  /** A body whose `k`-th statement reads the very name it assigns, where that
      name is local but not yet bound and no statement from the `i`-th on binds
      it first, cannot complete: it fails at that statement or before. */
  lemma {:induction false} ReadOfOwnTargetFails<N>(body: seq<Assignment<N>>, i: nat, locals: set<N>, bound: set<N>, globals: set<N>, k: nat, m: nat)
    requires i <= k < |body| && m < |body[k].operands|
    requires body[k].operands[m] == body[k].target
    requires body[k].target in locals
    requires body[k].target !in bound
    requires forall j :: i <= j < k ==> body[j].target != body[k].target
    ensures Run(body, i, locals, bound, globals) != Completed
    decreases k - i
  {
    if i == k {
      ReadOfUnboundFails(body[k].operands, 0, locals, bound, globals, m);
    } else if CheckReads(body[i].operands, 0, locals, bound, globals) == Completed {
      ReadOfOwnTargetFails(body, i + 1, locals, bound + {body[i].target}, globals, k, m);
    }
  }

  /** The names lines 24-29 of the library use. `Stdev` is both the module's
      rolling standard deviation and the local the body assigns. */
  datatype Name = DfHigh | DfLow | DfClose | Period | StdevDist
                | TypicalPrice | Middle | Stdev | Upper | Lower | Width | SmaFunction

  const ModuleNames: set<Name> := {Stdev, SmaFunction}

  const BollParams: set<Name> := {DfHigh, DfLow, DfClose, Period, StdevDist}

  /** The body of `Boll` as written. */
  const BollBody: seq<Assignment<Name>> := [
    Assignment(TypicalPrice, [DfHigh, DfClose, DfLow]),
    Assignment(Middle, [SmaFunction, TypicalPrice, Period]),
    Assignment(Stdev, [Stdev, TypicalPrice, Period]),
    Assignment(Upper, [Middle, StdevDist, Stdev]),
    Assignment(Lower, [Middle, StdevDist, Stdev])
  ]

  /** The same body with the local band width renamed, so that `stdev` names
      the module's rolling standard deviation. */
  const BollBodyRenamed: seq<Assignment<Name>> := [
    Assignment(TypicalPrice, [DfHigh, DfClose, DfLow]),
    Assignment(Middle, [SmaFunction, TypicalPrice, Period]),
    Assignment(Width, [Stdev, TypicalPrice, Period]),
    Assignment(Upper, [Middle, StdevDist, Width]),
    Assignment(Lower, [Middle, StdevDist, Width])
  ]

  /** As written, `Boll` cannot return: the assignment to `stdev` makes the
      name local, so the call `stdev(...)` on that line reads an unbound local. */
  lemma BollAsWrittenRaises()
    ensures Call(BollParams, BollBody, ModuleNames) != Completed
  {
    var locals := BollParams + Targets(BollBody);
    assert BollBody[2].target == Stdev && BollBody[2].operands[0] == Stdev;
    ReadOfOwnTargetFails(BollBody, 0, locals, BollParams, ModuleNames, 2, 0);
  }

  /** The names a five-statement body assigns. */
  lemma TargetsOfFive<N>(body: seq<Assignment<N>>)
    requires |body| == 5
    ensures Targets(body) == {body[0].target, body[1].target, body[2].target, body[3].target, body[4].target}
  {
    var t := Targets(body);
    forall x | x in t
      ensures x in {body[0].target, body[1].target, body[2].target, body[3].target, body[4].target}
    {
      var k :| 0 <= k < |body| && body[k].target == x;
    }
  }

  /** The locals of `Boll`: its parameters and every name it assigns. */
  lemma BollLocals()
    ensures Targets(BollBody) == {TypicalPrice, Middle, Stdev, Upper, Lower}
    ensures Targets(BollBodyRenamed) == {TypicalPrice, Middle, Width, Upper, Lower}
  {
    TargetsOfFive(BollBody);
    TargetsOfFive(BollBodyRenamed);
  }

  /** The first failure is exactly `UnboundLocalError` on `stdev`, at the
      third statement. */
  lemma BollAsWrittenError()
    ensures Call(BollParams, BollBody, ModuleNames) == UnboundLocal(Stdev)
  {
    BollLocals();
    var body, globals := BollBody, ModuleNames;
    var locals := BollParams + {TypicalPrice, Middle, Stdev, Upper, Lower};
    var b1 := BollParams + {TypicalPrice};
    var b2 := b1 + {Middle};
    ResolvingReadsPass(body[0].operands, 0, locals, BollParams, globals);
    ResolvingReadsPass(body[1].operands, 0, locals, b1, globals);
    assert body[2].operands[0] == Stdev && Stdev in locals && Stdev !in b2;
    assert CheckReads(body[2].operands, 0, locals, b2, globals) == UnboundLocal(Stdev);
    assert Run(body, 1, locals, b1, globals) == UnboundLocal(Stdev);
  }

  /** With the local renamed, every name resolves and the body completes. */
  lemma RenamedBodyCompletes()
    ensures Call(BollParams, BollBodyRenamed, ModuleNames) == Completed
  {
    BollLocals();
    var body, globals := BollBodyRenamed, ModuleNames;
    var locals := BollParams + {TypicalPrice, Middle, Width, Upper, Lower};
    var b1 := BollParams + {TypicalPrice};
    var b2 := b1 + {Middle};
    var b3 := b2 + {Width};
    var b4 := b3 + {Upper};
    ResolvingReadsPass(body[0].operands, 0, locals, BollParams, globals);
    ResolvingReadsPass(body[1].operands, 0, locals, b1, globals);
    ResolvingReadsPass(body[2].operands, 0, locals, b2, globals);
    ResolvingReadsPass(body[3].operands, 0, locals, b3, globals);
    ResolvingReadsPass(body[4].operands, 0, locals, b4, globals);
    assert Run(body, 4, locals, b4, globals) == Completed;
    assert Run(body, 3, locals, b3, globals) == Completed;
    assert Run(body, 2, locals, b2, globals) == Completed;
    assert Run(body, 1, locals, b1, globals) == Completed;
  }
}
