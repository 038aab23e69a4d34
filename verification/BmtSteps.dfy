/** Every step of the caller and of every goroutine keeps the invariant. */
module BmtSteps {
  import opened BmtTree
  import opened BmtRun
  import opened BmtInvariant

  // ---------- Consequences of the invariant ----------

  /** Two goroutines that have both got as far as the children of `n` come from different children. */
  lemma DifferentSides(c: Chunk, gs: seq<Goroutine>, t: nat, t': nat, n: NodeId)
    requires Exclusive(c, gs)
    requires t < |gs| && t' < |gs| && t != t' && n.height > 0
    requires Reached(c, gs[t]) >= n.height - 1
    requires gs[t'].Returned? ==> gs[t'].n.height >= n.height
    requires Anc(n.height, t) == n.index == Anc(n.height, t')
    ensures Anc(n.height - 1, t) != Anc(n.height - 1, t')
    ensures FromLeft(n.height, t) != FromLeft(n.height, t')
  {
  }

  /** While a goroutine is still to toggle at a node, nobody has crossed the node. */
  lemma NobodyCrossed(c: Chunk, nodes0: Nodes, s: State, t: nat, n: NodeId)
    requires Inv(c, nodes0, s)
    requires t < |s.gs| && s.gs[t].AtNode? && s.gs[t].n == n && s.gs[t].pc != Combining
    requires n in s.nodes && Balanced(c, n)
    ensures !SomeCrossed(c, s.gs, n)
  {
    if SomeCrossed(c, s.gs, n) {
      var t1: nat :| t1 < |s.gs| && Crosses(c, s.gs[t1], t1, n);
      var t2: nat :| t2 < |s.gs| && s.gs[t2] == Returned(n);
      assert GoOk(c, s.gs[t], t) && GoOk(c, s.gs[t1], t1) && GoOk(c, s.gs[t2], t2);
      if Reached(c, s.gs[t1]) < n.height {
        DifferentSides(c, s.gs, t, t1, n);
        DifferentSides(c, s.gs, t, t2, n);
        DifferentSides(c, s.gs, t1, t2, n);
      }
    }
  }

  lemma NobodySent(c: Chunk, gs: seq<Goroutine>, t: nat)
    requires 0 < |gs| == |c.segs| && t < |gs| && Exclusive(c, gs)
    requires gs[t].AtNode? || gs[t].Hashing? || gs[t].NotStarted?
    ensures forall u: nat | u < |gs| :: !gs[u].Sent?
  {
    forall u: nat | u < |gs|
      ensures !gs[u].Sent?
    {
      if gs[u].Sent? {
        TopAbove(c, u);
        TopAbove(c, t);
      }
    }
  }

  /** The top node is above every leaf. */
  lemma TopAbove(c: Chunk, t: nat)
    requires t < |c.segs|
    ensures Anc(Top(c), t) == 0
  {
    TopIsFirstInitial(|c.segs|, Top(c));
    AncMonotone(Top(c), t, c.Last());
  }

  // ---------- Steps that change one goroutine, part by part ----------

  lemma GoroutinesKept(c: Chunk, caller: Caller, gs: seq<Goroutine>, t: nat, g: Goroutine)
    requires t < |gs| == |c.segs| && GoroutinesOk(c, caller, gs)
    requires GoOk(c, g, t) && !g.NotStarted? && !gs[t].NotStarted?
    ensures GoroutinesOk(c, caller, gs[t := g])
  {
  }

  lemma ExclusiveKept(c: Chunk, gs: seq<Goroutine>, t: nat, g: Goroutine)
    requires t < |gs| && Exclusive(c, gs)
    requires !gs[t].Returned? && Reached(c, g) <= Reached(c, gs[t])
    ensures Exclusive(c, gs[t := g])
  {
  }

  lemma TogglesKept(c: Chunk, gs: seq<Goroutine>, t: nat, g: Goroutine, n: NodeId)
    requires |c.segs| > 0 && t < |gs|
    requires gs[t] == Returned(n) <==> g == Returned(n)
    requires Crosses(c, gs[t], t, n) <==> Crosses(c, g, t, n)
    ensures var gs' := gs[t := g];
            && Toggles(c, gs, n) == Toggles(c, gs', n)
            && (SomeReturned(gs, n) <==> SomeReturned(gs', n))
            && (SomeCrossed(c, gs, n) <==> SomeCrossed(c, gs', n))
  {
    var gs' := gs[t := g];
    if u: nat :| u < |gs| && gs[u] == Returned(n) { assert gs'[u] == Returned(n); }
    if u: nat :| u < |gs| && gs'[u] == Returned(n) { assert gs[u] == Returned(n); }
    if u: nat :| u < |gs| && Crosses(c, gs[u], u, n) { assert Crosses(c, gs'[u], u, n); }
    if u: nat :| u < |gs| && Crosses(c, gs'[u], u, n) { assert Crosses(c, gs[u], u, n); }
  }

  lemma CountersKept(c: Chunk, nodes0: Nodes, nodes: Nodes, nodes': Nodes, gs: seq<Goroutine>, t: nat, g: Goroutine)
    requires |c.segs| > 0 && t < |gs| && nodes0.Keys == nodes.Keys == nodes'.Keys
    requires CountersOk(c, nodes0, nodes, gs)
    requires forall n | n in nodes :: nodes'[n].state == nodes[n].state
    requires !gs[t].Returned? && !g.Returned?
    requires forall n | n in nodes :: Crosses(c, gs[t], t, n) <==> Crosses(c, g, t, n)
    ensures CountersOk(c, nodes0, nodes', gs[t := g])
  {
    forall n: NodeId | n in nodes
      ensures nodes'[n].state == After(nodes0[n].state, Toggles(c, gs[t := g], n))
      ensures Balanced(c, n) && SomeCrossed(c, gs[t := g], n) ==> SomeReturned(gs[t := g], n)
    {
      TogglesKept(c, gs, t, g, n);
    }
  }

  lemma FlagsKept(c: Chunk, nodes: Nodes, nodes': Nodes, caller: Caller)
    requires |c.segs| > 0 && nodes.Keys == nodes'.Keys && FlagsOk(c, nodes, caller)
    requires forall n | n in nodes :: nodes'[n].unbalanced == nodes[n].unbalanced && nodes'[n].root == nodes[n].root
    requires forall n | n in nodes :: nodes[n].unbalanced ==> nodes'[n].right == nodes[n].right
    ensures FlagsOk(c, nodes', caller)
  {
  }

  /** A goroutine meets an unbalanced node exactly where there is no data below the right child. */
  lemma UnbalancedMeans(c: Chunk, nodes0: Nodes, s: State, t: nat)
    requires Inv(c, nodes0, s) && t < |s.gs| && s.gs[t].AtNode? && s.gs[t].n in s.nodes
    ensures s.nodes[s.gs[t].n].unbalanced <==> !Balanced(c, s.gs[t].n)
    ensures s.nodes[s.gs[t].n].unbalanced ==> s.gs[t].fromLeft
  {
    var n := s.gs[t].n;
    var last := c.Last();
    assert GoOk(c, s.gs[t], t) && GoOk(c, s.gs[last], last);
    AncMonotone(n.height, t, last);
    if n.height > 0 {
      AncMonotone(n.height - 1, t, last);
      if !Balanced(c, n) {
        assert Anc(n.height - 1, t) == Anc(n.height - 1, last) == 2 * n.index;
        assert Launched(c, s.caller, last);
      }
    }
  }

  // ---------- Deposit ----------

  lemma DepositKeepsFields(c: Chunk, nodes0: Nodes, s: State, t: nat)
    requires Inv(c, nodes0, s) && At(c, s, t, Arriving)
    ensures FieldsOk(c, DepositStep(c, s, t).nodes, DepositStep(c, s, t).gs)
  {
    var s' := DepositStep(c, s, t);
    var n := s.gs[t].n;
    assert GoOk(c, s.gs[t], t);
    forall u: nat, m: NodeId | u < |s'.gs| && m in s'.nodes && HasDeposited(s'.gs[u], m)
      ensures Carried(c, m.height, u) == Side(s'.nodes[m], FromLeft(m.height, u))
    {
      if u != t {
        assert HasDeposited(s.gs[u], m);
        assert GoOk(c, s.gs[u], u);
        if m == n && m.height > 0 {
          DifferentSides(c, s.gs, t, u, n);
        }
      }
    }
  }

  lemma DepositKeepsFlags(c: Chunk, nodes0: Nodes, s: State, t: nat)
    requires Inv(c, nodes0, s) && At(c, s, t, Arriving)
    ensures FlagsOk(c, DepositStep(c, s, t).nodes, s.caller)
  {
    UnbalancedMeans(c, nodes0, s, t);
    FlagsKept(c, s.nodes, DepositStep(c, s, t).nodes, s.caller);
  }

  /** A goroutine that moves without toggling or crossing a node leaves all counters alone. */
  lemma QuietMove(c: Chunk, nodes0: Nodes, s: State, t: nat, g: Goroutine)
    requires Inv(c, nodes0, s) && t < |s.gs|
    requires s.gs[t].AtNode? && g.AtNode? && g.n == s.gs[t].n && g.pc == Deposited && s.gs[t].pc == Arriving
    requires GoOk(c, g, t)
    ensures GoroutinesOk(c, s.caller, s.gs[t := g]) && Exclusive(c, s.gs[t := g]) && AtMostOneReturns(s.gs[t := g])
    ensures CountersOk(c, nodes0, s.nodes, s.gs[t := g])
    ensures ResultsOk(c, s.gs[t := g], s.results)
  {
    GoroutinesKept(c, s.caller, s.gs, t, g);
    ExclusiveKept(c, s.gs, t, g);
    CountersKept(c, nodes0, s.nodes, s.nodes, s.gs, t, g);
    NobodySent(c, s.gs, t);
  }

  lemma DepositKeepsInv(c: Chunk, nodes0: Nodes, s: State, t: nat)
    requires Inv(c, nodes0, s) && At(c, s, t, Arriving)
    ensures Inv(c, nodes0, DepositStep(c, s, t))
  {
    var s' := DepositStep(c, s, t);
    assert GoOk(c, s.gs[t], t);
    QuietMove(c, nodes0, s, t, s'.gs[t]);
    DepositKeepsFields(c, nodes0, s, t);
    DepositKeepsFlags(c, nodes0, s, t);
  }

  // ---------- Toggle ----------

  /** Crossing an unbalanced node does not touch its counter. */
  lemma PassKeepsInv(c: Chunk, nodes0: Nodes, s: State, t: nat)
    requires Inv(c, nodes0, s) && At(c, s, t, Deposited) && s.nodes[s.gs[t].n].unbalanced
    ensures Inv(c, nodes0, ToggleStep(c, s, t))
  {
    var g, g' := s.gs[t], s.gs[t].(pc := Combining);
    assert GoOk(c, g, t);
    GoroutinesKept(c, s.caller, s.gs, t, g');
    ExclusiveKept(c, s.gs, t, g');
    UnbalancedMeans(c, nodes0, s, t);
    NobodySent(c, s.gs, t);
    PassKeepsCounters(c, nodes0, s, t);
    FieldsKept(c, s.nodes, s.nodes, s.gs, t, g');
  }

  lemma PassKeepsCounters(c: Chunk, nodes0: Nodes, s: State, t: nat)
    requires |c.segs| > 0 && t < |s.gs| && nodes0.Keys == s.nodes.Keys && CountersOk(c, nodes0, s.nodes, s.gs)
    requires s.gs[t].AtNode? && s.gs[t].pc == Deposited && !Balanced(c, s.gs[t].n)
    ensures CountersOk(c, nodes0, s.nodes, s.gs[t := s.gs[t].(pc := Combining)])
  {
    forall n: NodeId | n in s.nodes
      ensures var gs' := s.gs[t := s.gs[t].(pc := Combining)];
              && s.nodes[n].state == After(nodes0[n].state, Toggles(c, gs', n))
              && (Balanced(c, n) && SomeCrossed(c, gs', n) ==> SomeReturned(gs', n))
    {
      if n != s.gs[t].n {
        TogglesKept(c, s.gs, t, s.gs[t].(pc := Combining), n);
      }
    }
  }

  lemma FieldsKept(c: Chunk, nodes: Nodes, nodes': Nodes, gs: seq<Goroutine>, t: nat, g: Goroutine)
    requires t < |gs| == |c.segs| && nodes.Keys == nodes'.Keys && FieldsOk(c, nodes, gs)
    requires forall n | n in nodes :: nodes'[n].left == nodes[n].left && nodes'[n].right == nodes[n].right
    requires forall n | n in nodes :: HasDeposited(g, n) ==> HasDeposited(gs[t], n)
    ensures FieldsOk(c, nodes', gs[t := g])
  {
    var gs' := gs[t := g];
    forall u: nat, n: NodeId | u < |gs'| && n in nodes' && HasDeposited(gs'[u], n)
      ensures Carried(c, n.height, u) == Side(nodes'[n], FromLeft(n.height, u))
    {
      assert HasDeposited(gs[u], n);
    }
  }

  /** The first goroutine at a balanced node returns, the second one goes on. */
  lemma ToggleDecides(c: Chunk, nodes0: Nodes, s: State, t: nat)
    requires Inv(c, nodes0, s) && At(c, s, t, Deposited) && !s.nodes[s.gs[t].n].unbalanced
    ensures Balanced(c, s.gs[t].n) && !SomeCrossed(c, s.gs, s.gs[t].n)
    ensures Toggle(s.nodes[s.gs[t].n].state).1 <==> !SomeReturned(s.gs, s.gs[t].n)
    ensures s.nodes[s.gs[t].n].state
         == After(nodes0[s.gs[t].n].state, if SomeReturned(s.gs, s.gs[t].n) then 1 else 0)
  {
    var n := s.gs[t].n;
    UnbalancedMeans(c, nodes0, s, t);
    NobodyCrossed(c, nodes0, s, t, n);
    assert Resting(nodes0[n]);
    FirstWaitsSecondPasses(nodes0[n].state);
  }

  lemma FirstWaitsSecondPasses(state: int)
    requires 0 <= state <= 0x7fff_ffff && state % 2 == 0
    ensures Toggle(After(state, 0)).1 && !Toggle(After(state, 1)).1
  {
    TogglePairsUpIff(state);
    assert After(state, 1) == Inc32(After(state, 0));
  }

  lemma ToggleKeepsCounters(c: Chunk, nodes0: Nodes, s: State, t: nat)
    requires Inv(c, nodes0, s) && At(c, s, t, Deposited) && !s.nodes[s.gs[t].n].unbalanced
    ensures CountersOk(c, nodes0, ToggleStep(c, s, t).nodes, ToggleStep(c, s, t).gs)
  {
    var s' := ToggleStep(c, s, t);
    var n := s.gs[t].n;
    ToggleDecides(c, nodes0, s, t);
    forall m: NodeId | m in s'.nodes
      ensures s'.nodes[m].state == After(nodes0[m].state, Toggles(c, s'.gs, m))
      ensures Balanced(c, m) && SomeCrossed(c, s'.gs, m) ==> SomeReturned(s'.gs, m)
    {
      if m != n {
        TogglesKept(c, s.gs, t, s'.gs[t], m);
      } else {
        ToggleCounts(c, s.gs, t, s'.gs[t], n);
      }
    }
  }

  lemma ToggleCounts(c: Chunk, gs: seq<Goroutine>, t: nat, g: Goroutine, n: NodeId)
    requires |c.segs| > 0 && t < |gs| && gs[t].AtNode? && gs[t].n == n
    requires !SomeCrossed(c, gs, n)
    requires g == if SomeReturned(gs, n) then gs[t].(pc := Combining) else Returned(n)
    ensures SomeReturned(gs[t := g], n)
    ensures SomeCrossed(c, gs[t := g], n) <==> SomeReturned(gs, n)
  {
    var gs' := gs[t := g];
    if SomeReturned(gs, n) {
      var u: nat :| u < |gs| && gs[u] == Returned(n);
      assert gs'[u] == Returned(n) && Crosses(c, gs'[t], t, n);
    } else {
      assert gs'[t] == Returned(n);
      forall u: nat | u < |gs'|
        ensures !Crosses(c, gs'[u], u, n)
      {
        if u != t { assert !Crosses(c, gs[u], u, n); }
      }
    }
  }

  lemma ToggleKeepsGoroutines(c: Chunk, nodes0: Nodes, s: State, t: nat)
    requires Inv(c, nodes0, s) && At(c, s, t, Deposited) && !s.nodes[s.gs[t].n].unbalanced
    ensures var s' := ToggleStep(c, s, t);
            && GoroutinesOk(c, s.caller, s'.gs) && Exclusive(c, s'.gs) && AtMostOneReturns(s'.gs)
            && ResultsOk(c, s'.gs, s'.results)
  {
    var s' := ToggleStep(c, s, t);
    assert GoOk(c, s.gs[t], t);
    ToggleDecides(c, nodes0, s, t);
    GoroutinesKept(c, s.caller, s.gs, t, s'.gs[t]);
    ExclusiveKept(c, s.gs, t, s'.gs[t]);
    NobodySent(c, s.gs, t);
  }

  lemma ToggleKeepsInv(c: Chunk, nodes0: Nodes, s: State, t: nat)
    requires Inv(c, nodes0, s) && At(c, s, t, Deposited) && !s.nodes[s.gs[t].n].unbalanced
    ensures Inv(c, nodes0, ToggleStep(c, s, t))
  {
    var s' := ToggleStep(c, s, t);
    ToggleKeepsGoroutines(c, nodes0, s, t);
    ToggleKeepsCounters(c, nodes0, s, t);
    FieldsKept(c, s.nodes, s'.nodes, s.gs, t, s'.gs[t]);
    FlagsKept(c, s.nodes, s'.nodes, s.caller);
  }

  // ---------- Combine and hash: a goroutine produces the next value ----------

  /** Everyone else below node `(h, Anc(h, t))` has returned there or further down. */
  predicate Alone(gs: seq<Goroutine>, t: nat, h: nat) {
    forall u: nat | u < |gs| && u != t && Anc(h, u) == Anc(h, t) :: gs[u].Returned? && gs[u].n.height <= h
  }

  lemma BelowReached(c: Chunk, gs: seq<Goroutine>, t: nat, u: nat, h: nat)
    requires t < |gs| && u < |gs| && t != u && Exclusive(c, gs) && h <= Reached(c, gs[t]) && Anc(h, t) == Anc(h, u)
    ensures gs[u].Returned? && gs[u].n.height <= h
  {
  }

  /** With one goroutine from either child at a node, all others below have returned before. */
  lemma BalancedAlone(c: Chunk, gs: seq<Goroutine>, t: nat, other: nat, n: NodeId)
    requires t < |gs| && other < |gs| && Exclusive(c, gs) && n.height > 0 && n.height - 1 <= Reached(c, gs[t])
             && gs[other] == Returned(n)
    requires Anc(n.height, t) == n.index && Anc(n.height - 1, t) + Anc(n.height - 1, other) == 4 * n.index + 1
    ensures Alone(gs, t, n.height)
  {
    var h: nat := n.height - 1;
    forall u: nat | u < |gs| && u != t && Anc(n.height, u) == Anc(n.height, t)
      ensures gs[u].Returned? && gs[u].n.height <= n.height
    {
      if Anc(h, u) == Anc(h, t) {
        BelowReached(c, gs, t, u, h);
      } else if u != other {
        BelowReached(c, gs, other, u, h);
      }
    }
  }

  /** Where the right child has no data below it, all others come from the left child too. */
  lemma UnbalancedAlone(c: Chunk, gs: seq<Goroutine>, t: nat, n: NodeId)
    requires 0 < |gs| == |c.segs| && t < |gs| && Exclusive(c, gs) && 0 < n.height <= Top(c)
             && n.height - 1 <= Reached(c, gs[t])
    requires Anc(n.height, t) == n.index && Anc(n.height - 1, t) == 2 * n.index && !Balanced(c, n)
    ensures Alone(gs, t, n.height)
  {
    var h: nat := n.height - 1;
    forall u: nat | u < |gs| && u != t && Anc(n.height, u) == Anc(n.height, t)
      ensures gs[u].Returned? && gs[u].n.height <= n.height
    {
      AncMonotone(h, u, c.Last());
      BelowReached(c, gs, t, u, h);
    }
  }

  /** A goroutine that crosses a node is alone below it. */
  lemma CombiningIsAlone(c: Chunk, nodes0: Nodes, s: State, t: nat)
    requires Inv(c, nodes0, s) && At(c, s, t, Combining)
    ensures Alone(s.gs, t, s.gs[t].n.height)
  {
    var n := s.gs[t].n;
    assert GoOk(c, s.gs[t], t);
    if n.height > 0 {
      if Balanced(c, n) {
        var other := OtherSide(c, nodes0, s, t);
        BalancedAlone(c, s.gs, t, other, n);
      } else {
        UnbalancedMeans(c, nodes0, s, t);
        UnbalancedAlone(c, s.gs, t, n);
      }
    }
  }

  /** The goroutine that waits at a balanced node came from the other child. */
  lemma OtherSide(c: Chunk, nodes0: Nodes, s: State, t: nat) returns (u: nat)
    requires Inv(c, nodes0, s) && At(c, s, t, Combining) && Balanced(c, s.gs[t].n)
    ensures u < |s.gs| && s.gs[u] == Returned(s.gs[t].n)
    ensures Anc(s.gs[t].n.height - 1, t) + Anc(s.gs[t].n.height - 1, u) == 4 * s.gs[t].n.index + 1
    ensures FromLeft(s.gs[t].n.height, u) != FromLeft(s.gs[t].n.height, t)
  {
    var n := s.gs[t].n;
    assert GoOk(c, s.gs[t], t) && Crosses(c, s.gs[t], t, n);
    assert SomeCrossed(c, s.gs, n);
    u :| u < |s.gs| && s.gs[u] == Returned(n);
    assert GoOk(c, s.gs[u], u);
    WaitsOnOtherSide(c, s.gs, t, u, n);
  }

  lemma WaitsOnOtherSide(c: Chunk, gs: seq<Goroutine>, t: nat, u: nat, n: NodeId)
    requires t < |gs| && u < |gs| && Exclusive(c, gs) && n.height > 0
    requires gs[t].AtNode? && gs[t].n == n && gs[u] == Returned(n) && Anc(n.height, t) == n.index == Anc(n.height, u)
    ensures Anc(n.height - 1, t) + Anc(n.height - 1, u) == 4 * n.index + 1
    ensures FromLeft(n.height, u) != FromLeft(n.height, t)
  {
    DifferentSides(c, gs, t, u, n);
  }

  /** At a balanced node both values are in place when the second goroutine combines them. */
  lemma BothDeposited(c: Chunk, nodes: Nodes, gs: seq<Goroutine>, t: nat, u: nat, n: NodeId)
    requires t < |gs| == |c.segs| && u < |gs| && FieldsOk(c, nodes, gs) && n in nodes && n.height > 0
    requires HasDeposited(gs[t], n) && HasDeposited(gs[u], n) && Anc(n.height, t) == n.index
    requires Anc(n.height - 1, t) + Anc(n.height - 1, u) == 4 * n.index + 1
    ensures nodes[n].left == Val(c, n.height - 1, 2 * n.index)
    ensures nodes[n].right == Val(c, n.height - 1, 2 * n.index + 1)
  {
    var a, b := Anc(n.height - 1, t), Anc(n.height - 1, u);
    assert (a == 2 * n.index && b == 2 * n.index + 1) || (a == 2 * n.index + 1 && b == 2 * n.index);
    assert Carried(c, n.height, t) == Side(nodes[n], FromLeft(n.height, t));
    assert Carried(c, n.height, u) == Side(nodes[n], FromLeft(n.height, u));
  }

  /** At an unbalanced node the single value is passed on. */
  lemma OneDeposited(c: Chunk, nodes0: Nodes, s: State, t: nat)
    requires Inv(c, nodes0, s) && At(c, s, t, Combining) && !Balanced(c, s.gs[t].n)
    ensures Combined(c, s.gs[t], s.nodes[s.gs[t].n]) == Val(c, s.gs[t].n.height, s.gs[t].n.index)
  {
    var g := s.gs[t];
    var node := s.nodes[g.n];
    assert GoOk(c, g, t) && HasDeposited(g, g.n);
    UnbalancedMeans(c, nodes0, s, t);
    assert node.left + node.right == node.left;
    assert node.left == Carried(c, g.n.height, t);
    if g.n.height > 0 {
      TopIsFirstInitial(|c.segs|, 0);
      assert !(g.i == 0 && g.d == 0);
      assert 2 * g.n.index == Anc(g.n.height - 1, t);
    }
  }

  lemma CombinedBoth(c: Chunk, g: Goroutine, node: Node, n: NodeId)
    requires |c.segs| > 0 && g.AtNode? && !node.unbalanced && Balanced(c, n)
    requires node.left == Val(c, n.height - 1, 2 * n.index) && node.right == Val(c, n.height - 1, 2 * n.index + 1)
    ensures Combined(c, g, node) == Val(c, n.height, n.index)
  {
  }

  /** What a crossing goroutine computes is the node's value. */
  lemma CombinedIsVal(c: Chunk, nodes0: Nodes, s: State, t: nat)
    requires Inv(c, nodes0, s) && At(c, s, t, Combining)
    ensures Combined(c, s.gs[t], s.nodes[s.gs[t].n]) == Val(c, s.gs[t].n.height, s.gs[t].n.index)
  {
    var n := s.gs[t].n;
    if Balanced(c, n) {
      UnbalancedMeans(c, nodes0, s, t);
      assert GoOk(c, s.gs[t], t);
      var u := OtherSide(c, nodes0, s, t);
      BothDeposited(c, s.nodes, s.gs, t, u, n);
      CombinedBoth(c, s.gs[t], s.nodes[n], n);
    } else {
      OneDeposited(c, nodes0, s, t);
    }
  }

  /** At the top of the smallest tree the last pair has come by, so it has been launched. */
  lemma TopMeansLaunched(c: Chunk, nodes0: Nodes, s: State, t: nat)
    requires Inv(c, nodes0, s) && At(c, s, t, Combining) && s.gs[t].n.height == Top(c)
    ensures Launched(c, s.caller, c.Last())
  {
    var n, last := s.gs[t].n, c.Last();
    assert GoOk(c, s.gs[t], t) && GoOk(c, s.gs[last], last);
    if n.height > 0 {
      TopSplits(c, t);
      var u := OtherSide(c, nodes0, s, t);
      LastHasStarted(c, s.gs, t, u, n.height - 1);
    }
  }

  /** If the two goroutines that meet at the top are below different children, one of them is below the last pair's. */
  lemma LastHasStarted(c: Chunk, gs: seq<Goroutine>, t: nat, u: nat, h: nat)
    requires 0 < |gs| == |c.segs| && t < |gs| && u < |gs| && Exclusive(c, gs) && h <= Reached(c, gs[t])
             && h <= Reached(c, gs[u])
    requires Anc(h, t) + Anc(h, u) == 1 == Anc(h, c.Last())
    ensures !gs[c.Last()].NotStarted?
  {
    var last := c.Last();
    if Anc(h, t) == 1 {
      if t != last { BelowReached(c, gs, t, last, h); }
    } else {
      if u != last { BelowReached(c, gs, u, last, h); }
    }
  }

  /** The last pair is below the right child of the top. */
  lemma TopSplits(c: Chunk, t: nat)
    requires t < |c.segs| && Top(c) > 0
    ensures Anc(Top(c), t) == 0 && Anc(Top(c) - 1, c.Last()) == 1
    ensures Balanced(c, NodeId(Top(c), 0))
  {
    TopAbove(c, t);
    TopAbove(c, c.Last());
    TopIsFirstInitial(|c.segs|, Top(c) - 1);
  }

  /** The nodes where goroutines cross are roots exactly at the top of the smallest tree. */
  lemma RootMeansTop(c: Chunk, nodes0: Nodes, s: State, t: nat)
    requires Inv(c, nodes0, s) && At(c, s, t, Combining)
    ensures s.nodes[s.gs[t].n].root <==> s.gs[t].n.height == Top(c)
  {
    assert GoOk(c, s.gs[t], t);
    TopInTree(|c.segs|, c.depth);
    if s.gs[t].n.height == Top(c) {
      TopAbove(c, t);
      TopMeansLaunched(c, nodes0, s, t);
      assert Finalised(c, s.caller, Top(c));
    }
  }

  /** A goroutine that is alone below a node may take the node's value one step further. */
  lemma AdvanceKeepsExclusive(c: Chunk, gs: seq<Goroutine>, t: nat, g: Goroutine, h: nat)
    requires t < |gs| && Exclusive(c, gs) && Alone(gs, t, h)
    requires !gs[t].Returned? && Reached(c, gs[t]) == h - 1 && Reached(c, g) == h && !g.Returned?
    ensures Exclusive(c, gs[t := g])
  {
  }

  lemma AdvanceCrosses(c: Chunk, g: Goroutine, g': Goroutine, t: nat, h: nat, n: NodeId)
    requires Reached(c, g) == h - 1 && Reached(c, g') == h
    requires g.Hashing? ==> h == 0
    requires g.AtNode? ==> g.pc == Combining && g.n == NodeId(h, Anc(h, t))
    requires g.AtNode? || g.Hashing?
    requires g'.Sent? || (g'.AtNode? && g'.pc == Arriving)
    ensures Crosses(c, g', t, n) <==> (Crosses(c, g, t, n) || n == NodeId(h, Anc(h, t)))
  {
  }

  lemma AdvanceKeepsCounters(c: Chunk, nodes0: Nodes, nodes: Nodes, gs: seq<Goroutine>, t: nat, g': Goroutine, h: nat)
    requires |c.segs| > 0 && t < |gs| && nodes0.Keys == nodes.Keys && CountersOk(c, nodes0, nodes, gs)
    requires Reached(c, gs[t]) == h - 1 && Reached(c, g') == h
    requires if gs[t].AtNode? then gs[t].pc == Combining && gs[t].n == NodeId(h, Anc(h, t))
             else gs[t].Hashing? && h == 0
    requires g'.Sent? || (g'.AtNode? && g'.pc == Arriving)
    ensures CountersOk(c, nodes0, nodes, gs[t := g'])
  {
    forall n: NodeId | n in nodes
      ensures var gs' := gs[t := g'];
              && nodes[n].state == After(nodes0[n].state, Toggles(c, gs', n))
              && (Balanced(c, n) && SomeCrossed(c, gs', n) ==> SomeReturned(gs', n))
    {
      AdvanceCrosses(c, gs[t], g', t, h, n);
      if Balanced(c, n) {
        TogglesKept(c, gs, t, g', n);
      }
    }
  }

  /** The state after goroutine `t` has produced the value of its node on level `h`. */
  function Advanced(c: Chunk, s: State, t: nat, h: nat, i: nat, d: nat): State
    requires t < |s.gs| == |c.segs|
  {
    var v := Val(c, h, Anc(h, t));
    if h == Top(c) then s.(gs := s.gs[t := Sent], results := s.results + [v])
    else s.(gs := s.gs[t := AtNode(NodeId(h + 1, Anc(h + 1, t)), FromLeft(h + 1, t), i, v, d, Arriving)])
  }

  predicate ReadyToAdvance(c: Chunk, gs: seq<Goroutine>, t: nat, h: nat, i: nat, d: nat) {
    && t < |gs| == |c.segs| && h <= Top(c) && Alone(gs, t, h)
    && (if gs[t].AtNode? then gs[t].pc == Combining && gs[t].n == NodeId(h, Anc(h, t)) else gs[t].Hashing? && h == 0)
    && (t < c.Last() ==> d > 0)
    && (t == c.Last() && t > 0 ==> i > 0)
  }

  lemma AdvancedGoOk(c: Chunk, s: State, t: nat, h: nat, i: nat, d: nat)
    requires c.Valid() && ReadyToAdvance(c, s.gs, t, h, i, d)
    ensures GoOk(c, Advanced(c, s, t, h, i, d).gs[t], t)
    ensures Reached(c, Advanced(c, s, t, h, i, d).gs[t]) == h
    ensures h == Top(c) ==> Anc(h, t) == 0
  {
    if h == Top(c) { TopAbove(c, t); } else { ClimbedGoOk(c, t, h, i, d); }
  }

  lemma ClimbedGoOk(c: Chunk, t: nat, h: nat, i: nat, d: nat)
    requires t < |c.segs| && h < Top(c) && (t < c.Last() ==> d > 0) && (t == c.Last() && t > 0 ==> i > 0)
    ensures GoOk(c, AtNode(NodeId(h + 1, Anc(h + 1, t)), FromLeft(h + 1, t), i, Val(c, h, Anc(h, t)), d, Arriving), t)
  {
    TopIsFirstInitial(|c.segs|, 0);
    assert Carried(c, h + 1, t) == Val(c, h, Anc(h, t));
  }

  lemma AdvanceKeepsGoroutines(c: Chunk, nodes0: Nodes, s: State, t: nat, h: nat, i: nat, d: nat)
    requires Inv(c, nodes0, s) && ReadyToAdvance(c, s.gs, t, h, i, d)
    ensures var s' := Advanced(c, s, t, h, i, d);
            && GoroutinesOk(c, s.caller, s'.gs) && Exclusive(c, s'.gs) && AtMostOneReturns(s'.gs)
            && ResultsOk(c, s'.gs, s'.results)
  {
    var s' := Advanced(c, s, t, h, i, d);
    AdvancedGoOk(c, s, t, h, i, d);
    NobodySent(c, s.gs, t);
    GoroutinesKept(c, s.caller, s.gs, t, s'.gs[t]);
    AdvanceKeepsExclusive(c, s.gs, t, s'.gs[t], h);
  }

  lemma AdvanceKeepsInv(c: Chunk, nodes0: Nodes, s: State, t: nat, h: nat, i: nat, d: nat)
    requires Inv(c, nodes0, s) && ReadyToAdvance(c, s.gs, t, h, i, d)
    ensures Inv(c, nodes0, Advanced(c, s, t, h, i, d))
  {
    var s' := Advanced(c, s, t, h, i, d);
    AdvancedGoOk(c, s, t, h, i, d);
    AdvanceKeepsGoroutines(c, nodes0, s, t, h, i, d);
    AdvanceKeepsCounters(c, nodes0, s.nodes, s.gs, t, s'.gs[t], h);
    FieldsKept(c, s.nodes, s.nodes, s.gs, t, s'.gs[t]);
  }

  lemma CombineAdvances(c: Chunk, nodes0: Nodes, s: State, t: nat)
    requires Inv(c, nodes0, s) && At(c, s, t, Combining)
    ensures var g := s.gs[t];
            && ReadyToAdvance(c, s.gs, t, g.n.height, g.i + 1, g.d)
            && CombineStep(c, s, t) == Advanced(c, s, t, g.n.height, g.i + 1, g.d)
  {
    assert GoOk(c, s.gs[t], t);
    CombiningIsAlone(c, nodes0, s, t);
    CombinedIsVal(c, nodes0, s, t);
    RootMeansTop(c, nodes0, s, t);
  }

  lemma CombineKeepsInv(c: Chunk, nodes0: Nodes, s: State, t: nat)
    requires Inv(c, nodes0, s) && At(c, s, t, Combining)
    ensures Inv(c, nodes0, CombineStep(c, s, t))
  {
    CombineAdvances(c, nodes0, s, t);
    AdvanceKeepsInv(c, nodes0, s, t, s.gs[t].n.height, s.gs[t].i + 1, s.gs[t].d);
  }

  lemma HashKeepsInv(c: Chunk, nodes0: Nodes, s: State, t: nat)
    requires Inv(c, nodes0, s) && GoEnabled(c, s, t) && s.gs[t].Hashing?
    ensures Inv(c, nodes0, HashStep(c, s, t))
  {
    assert GoOk(c, s.gs[t], t);
    assert s.nodes[NodeId(0, t)].root <==> Top(c) == 0 by {
      if Top(c) == 0 {
        TopIsFirstInitial(|c.segs|, 0);
        assert Finalised(c, s.caller, Top(c));
      }
    }
    AdvanceKeepsInv(c, nodes0, s, t, 0, t, s.gs[t].d);
    assert HashStep(c, s, t) == Advanced(c, s, t, 0, t, s.gs[t].d);
  }

  lemma GoKeepsInv(c: Chunk, nodes0: Nodes, s: State, t: nat)
    requires Inv(c, nodes0, s) && GoEnabled(c, s, t)
    ensures Inv(c, nodes0, GoStep(c, s, t))
  {
    if s.gs[t].Hashing? {
      HashKeepsInv(c, nodes0, s, t);
    } else {
      match s.gs[t].pc
      case Arriving => DepositKeepsInv(c, nodes0, s, t);
      case Deposited =>
        if s.nodes[s.gs[t].n].unbalanced { PassKeepsInv(c, nodes0, s, t); } else { ToggleKeepsInv(c, nodes0, s, t); }
      case Combining => CombineKeepsInv(c, nodes0, s, t);
    }
  }
}
