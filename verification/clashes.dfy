/** When the way hash sets print decides which ambiguous sets an analysis takes whole. */
module Clashes {
  import opened Wrappers
  import opened MavenPaths
  import opened Ordered
  import opened Greedy
  import opened GreedyOrder
  import opened Analyser
  import opened Matching
  import opened Analysis

  // ---- Printing in a given order ----

  function Place(order: seq<set<Path>>, m: set<Path>): (i: nat)
    requires m in order
    ensures i < |order| && order[i] == m
  {
    if order[0] == m then 0 else 1 + Place(order[1..], m)
  }

  function Strokes(n: nat): string {
    if n == 0 then "" else "i" + Strokes(n - 1)
  }

  lemma {:induction false} StrokesCompare(m: nat, n: nat)
    ensures Compare(Strokes(m), Strokes(n)) == m - n
    decreases m
  {
    if m == 0 {
      StrokesLength(n);
    } else if n == 0 {
      StrokesLength(m);
    } else {
      StrokesCompare(m - 1, n - 1);
      assert Strokes(m)[1..] == Strokes(m - 1) && Strokes(n)[1..] == Strokes(n - 1);
    }
  }

  lemma {:induction false} StrokesLength(n: nat)
    ensures |Strokes(n)| == n
  {
    if n > 0 { StrokesLength(n - 1); }
  }

  /** A way of printing that sorts the ambiguous sets into this order. */
  ghost function ShowIn(idx: Index, order: seq<set<Path>>): Observation -> string {
    (o: Observation) => if Candidates(idx, o) in order then Strokes(Place(order, Candidates(idx, o))) else ""
  }

  function Labelled(order: seq<set<Path>>): seq<Ambiguity> {
    seq(|order|, i requires 0 <= i < |order| => Ambiguity(order[i], Strokes(i)))
  }

  lemma LabelledAscends(order: seq<set<Path>>)
    requires SmallestFirst(order)
    ensures Ascending(BySize, Labelled(order))
  {
    forall i, j | 0 <= i < j < |order| ensures BySize(Labelled(order)[i], Labelled(order)[j]) < 0 {
      StrokesCompare(i, j);
      assert |order[i]| <= |order[j]|;
    }
  }

  /** The labelled sets are what matching records. */
  lemma LabelledRecorded(idx: Index, seen: set<Observation>, order: seq<set<Path>>, a: Ambiguity)
    requires Orders(order, Ambiguous(idx, seen)) && Once(order)
    ensures a in Ambiguities(idx, seen, ShowIn(idx, order)) <==> a in Labelled(order)
  {
    if a in Ambiguities(idx, seen, ShowIn(idx, order)) {
      var o :| o in seen && |Candidates(idx, o)| > 1 && a == Ambiguity(Candidates(idx, o), ShowIn(idx, order)(o));
      assert Candidates(idx, o) in Elements(order);
      assert Labelled(order)[Place(order, Candidates(idx, o))] == a;
    }
    if a in Labelled(order) {
      var i :| 0 <= i < |order| && Labelled(order)[i] == a;
      assert order[i] in Elements(order);
      var o :| o in seen && |Candidates(idx, o)| > 1 && Candidates(idx, o) == order[i];
      PlaceOnce(order, i);
      assert ShowIn(idx, order)(o) == Strokes(i);
    }
  }

  lemma PlaceOnce(order: seq<set<Path>>, i: nat)
    requires Once(order) && i < |order|
    ensures Place(order, order[i]) == i
  {
  }

  lemma LabelledKeeps(idx: Index, seen: set<Observation>, order: seq<set<Path>>)
    requires Orders(order, Ambiguous(idx, seen)) && Once(order)
    ensures var all := Ambiguities(idx, seen, ShowIn(idx, order)); Keeps(Labelled(order), all) && PrintApart(all)
    ensures JarSets(Labelled(order)) == order
  {
    var all := Ambiguities(idx, seen, ShowIn(idx, order));
    LabelledAscends(order);
    forall a ensures a in all <==> a in Labelled(order) { LabelledRecorded(idx, seen, order, a); }
    forall a | a in all ensures Present(BySize, Labelled(order), a) {
      CompareSigns(a.text, a.text);
    }
    KeepsAllIff(Labelled(order), all);
  }

  // ---- Analyses that differ in how sets print only ----

  /** An analysis of this input, if hash sets print like this; no two ambiguous sets of one size print alike. */
  ghost predicate AnalysedAs(input: Input, show: Observation -> string, f: Findings, index: Index, sets: seq<Ambiguity>) {
    && AnalysedVia(input.(show := show), f, index, sets)
    && PrintApart(Ambiguities(Pruned(index, input.outputs), Observed(input.outputs), show))
  }

  /** If sets print in a given order, an analysis sees them in that order. */
  lemma AnalysedInOrder(input: Input, f: Findings, index: Index, sets: seq<Ambiguity>, order: seq<set<Path>>)
    returns (show: Observation -> string, g: Findings, sets': seq<Ambiguity>)
    requires AnalysedVia(input, f, index, sets)
    requires Orders(order, Ambiguous(Pruned(index, input.outputs), Observed(input.outputs))) && Once(order)
    ensures AnalysedAs(input, show, g, index, sets') && JarSets(sets') == order
  {
    var idx, seen := Pruned(index, input.outputs), Observed(input.outputs);
    show, sets' := ShowIn(idx, order), Labelled(order);
    LabelledKeeps(idx, seen, order);
    var chosen := Resolve(order, Definite(idx, seen));
    forall p | p in chosen ensures |p| >= 3 {
      ChosenIsCandidate(idx, seen, show, sets', p);
      var o :| o in seen && p in Candidates(idx, o);
      CandidatesDeep(index, f.buildGavs, JarsOf(input), input.outputs, o);
    }
    var gavs := set x | x in Community(input, chosen) && !Allows(input.allowed, x);
    g := Findings(chosen, gavs, Reported(input.outputs) + JarRecords(chosen), f.buildGavs);
  }

  ghost function TakenWhole(input: Input, index: Index, sets: seq<Ambiguity>): set<set<Path>> {
    Elements(Wholesale(JarSets(sets), Definite(Pruned(index, input.outputs), Observed(input.outputs))))
  }

  /** However sets print, the same ambiguous sets are taken whole. */
  ghost predicate PrintFree(input: Input, index: Index) {
    forall show, show', f, f', sets, sets' |
      AnalysedAs(input, show, f, index, sets) && AnalysedAs(input, show', f', index, sets') ::
      TakenWhole(input, index, sets) == TakenWhole(input, index, sets')
  }

  /** How hash sets print can decide which ambiguous sets an analysis takes whole exactly if two of them clash. */
  lemma PrintFreeIff(input: Input, f: Findings, index: Index, sets: seq<Ambiguity>)
    requires AnalysedVia(input, f, index, sets)
    ensures var idx, seen := Pruned(index, input.outputs), Observed(input.outputs);
            PrintFree(input, index) <==> Clashless(Ambiguous(idx, seen), Definite(idx, seen))
  {
    var idx, seen := Pruned(index, input.outputs), Observed(input.outputs);
    if Clashless(Ambiguous(idx, seen), Definite(idx, seen)) {
      forall show, show', g, g', one, two | AnalysedAs(input, show, g, index, one) && AnalysedAs(input, show', g', index, two)
        ensures TakenWhole(input, index, one) == TakenWhole(input, index, two)
      {
        AnalysesTakeAlike(input, index, show, show', g, g', one, two);
      }
    } else {
      ClashShows(input, f, index, sets);
    }
  }

  lemma AnalysesTakeAlike(input: Input, index: Index, show: Observation -> string, show': Observation -> string,
                          f: Findings, f': Findings, sets: seq<Ambiguity>, sets': seq<Ambiguity>)
    requires AnalysedAs(input, show, f, index, sets) && AnalysedAs(input, show', f', index, sets')
    requires var idx, seen := Pruned(index, input.outputs), Observed(input.outputs);
             Clashless(Ambiguous(idx, seen), Definite(idx, seen))
    ensures TakenWhole(input, index, sets) == TakenWhole(input, index, sets')
  {
    var idx, seen := Pruned(index, input.outputs), Observed(input.outputs);
    KeptOrders(idx, seen, show, sets);
    KeptOrders(idx, seen, show', sets');
    OrderFreeIff(Ambiguous(idx, seen), Definite(idx, seen));
  }

  lemma ClashShows(input: Input, f: Findings, index: Index, sets: seq<Ambiguity>)
    requires AnalysedVia(input, f, index, sets)
    requires var idx, seen := Pruned(index, input.outputs), Observed(input.outputs);
             !Clashless(Ambiguous(idx, seen), Definite(idx, seen))
    ensures !PrintFree(input, index)
  {
    var idx, seen := Pruned(index, input.outputs), Observed(input.outputs);
    var one, two := ClashingOrders(Ambiguous(idx, seen), Definite(idx, seen));
    var show, g, sets1 := AnalysedInOrder(input, f, index, sets, one);
    var show', g', sets2 := AnalysedInOrder(input, f, index, sets, two);
    assert TakenWhole(input, index, sets1) != TakenWhole(input, index, sets2);
  }
}
