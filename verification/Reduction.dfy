/** The reduction of a cached flow as it runs, on a copy updated in place. */
module Reduction {
  import opened Numeric
  import opened FlowTypes
  import opened Yflow
  import Chemin

  lemma {:induction false} AmountGrows(f: Tflow, m: nat, n: nat, oid: int)
    requires m <= n <= |f.x| && forall i :: 0 <= i < n ==> f.flowr[i] >= 0
    ensures AmountUpTo(f, m, oid) <= AmountUpTo(f, n, oid)
    decreases n
  {
    if m < n { AmountGrows(f, m, n - 1, oid); }
  }

  /** Node b of the cached flow, after the first n nodes of f1. */
  ghost predicate GivenUpTo(f1: Tflow, n: nat, b: Tfl, now: Tfl)
    requires n <= |f1.x| && IsDraft(f1)
  {
    CanGive(b, AmountUpTo(f1, n, b.oid)) && now == Given(b, AmountUpTo(f1, n, b.oid))
  }

  /** Takes the flow of node i of f1 from the nodes of its stock. */
  method SubtractNode(x: array<Tfl>, f1: Tflow, i: nat, ghost was: seq<Tfl>) returns (ok: bool)
    requires IsDraft(f1) && i < |f1.x| && |was| == x.Length
    requires forall j :: 0 <= j < x.Length ==> GivenUpTo(f1, i, was[j], x[j])
    modifies x
    ensures ok ==> forall j :: 0 <= j < x.Length ==> GivenUpTo(f1, i + 1, was[j], x[j])
    ensures !ok ==> !AllCanGive(was, f1)
  {
    for j := 0 to x.Length
      invariant forall k :: 0 <= k < j ==> GivenUpTo(f1, i + 1, was[k], x[k])
      invariant forall k :: j <= k < x.Length ==> GivenUpTo(f1, i, was[k], x[k])
    {
      if x[j].oid != f1.x[i].oid {
        continue;
      }
      if IsNoQttLimit(x[j].kind) {
        continue;
      }
      if x[j].qtt < f1.flowr[i] {
        AmountGrows(f1, i + 1, |f1.x|, was[j].oid);
        return false;
      }
      x[j] := x[j].(qtt := x[j].qtt - f1.flowr[i]);
    }
    ok := true;
  }

  lemma SubtractedIs(was: seq<Tfl>, f1: Tflow, now: seq<Tfl>)
    requires IsDraft(f1) && |now| == |was|
    requires forall j :: 0 <= j < |was| ==> GivenUpTo(f1, |f1.x|, was[j], now[j])
    ensures AllCanGive(was, f1) && now == Subtracted(was, f1)
  {
    hide AmountUpTo, CanGive, Given;
  }

  /** Gives the last node the price found by a quote, and freezes it when asked for. */
  method SetPrice(x: array<Tfl>, found: Tfl, freeze: bool)
    requires x.Length >= 1
    modifies x
    ensures x[..] == old(x[..])[x.Length - 1 := Frozen(old(x[x.Length - 1]), found, freeze)]
  {
    var n := x.Length;
    if IsIgnoreOmega(x[n - 1].kind) {
      x[n - 1] := x[n - 1].(qttProv := found.qttProv, qttRequ := found.qttRequ);
      if freeze {
        x[n - 1] := x[n - 1].(kind := x[n - 1].kind - 8);
      }
    }
  }

  /** What is left to do when the stocks and the price have been set. */
  lemma ReducedIs(root: RootFunction, f0: Tflow, f1: Tflow, freeze: bool, z: seq<Tfl>)
    requires IsRoot(root) && |f0.x| >= 1 && IsDraft(f1) && f0.x[|f0.x| - 1].id == f1.x[|f1.x| - 1].id
    requires AllCanGive(f0.x, f1) && |z| == |f0.x|
    requires var y := Subtracted(f0.x, f1);
             z == y[|y| - 1 := Frozen(y[|y| - 1], f1.x[|f1.x| - 1], freeze)]
    ensures var s := Kernel.FlowcMaximum(root, FlowRecord(z, f0.flowr));
            Reduce(root, f0, f1, freeze) == if s.Ok? then Ok(s.value.flow) else Err(s.error)
  {
    hide Kernel.FlowcMaximum, AllCanGive, Subtracted, Frozen;
  }

  /** Reduces a copy of f0 by the executed flow f1, and computes its flow again. */
  method YflowReduce(root: RootFunction, f0: Tflow, f1: Tflow, freeze: bool) returns (r: Result<Tflow>)
    requires IsRoot(root) && |f0.x| >= 1 && IsDraft(f1)
    ensures r == Reduce(root, f0, f1, freeze)
  {
    var n := |f0.x|;
    if f0.x[n - 1].id != f1.x[|f1.x| - 1].id {
      return Err(LastNodesDiffer);
    }
    var x := new Tfl[n](i requires 0 <= i < n => f0.x[i]);
    var flowr := new int[n](i requires 0 <= i < n => f0.flowr[i]);
    assert flowr[..] == f0.flowr;
    assert forall j :: 0 <= j < n ==> GivenUpTo(f1, 0, f0.x[j], x[j]);
    hide GivenUpTo, AmountUpTo, Kernel.FlowcMaximum, AllCanGive, Subtracted;
    for i := 0 to |f1.x|
      invariant forall j :: 0 <= j < n ==> GivenUpTo(f1, i, f0.x[j], x[j])
      invariant flowr[..] == f0.flowr
    {
      var ok := SubtractNode(x, f1, i, f0.x);
      if !ok {
        return Err(FlowAboveStock);
      }
    }
    SubtractedIs(f0.x, f1, x[..]);
    ghost var y := x[..];
    hide Frozen, Reduce;
    SetPrice(x, f1.x[|f1.x| - 1], freeze);
    ReducedIs(root, f0, f1, freeze, x[..]);
    var s := Chemin.FlowcMaximum(root, x, flowr);
    if s.Err? {
      return Err(s.error);
    }
    r := Ok(FlowRecord(x[..], flowr[..]));
  }
}
