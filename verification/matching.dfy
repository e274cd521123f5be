/** Matching the classes of the output against the index, and resolving classes that several jars provide. */
module Matching {
  import opened Wrappers
  import opened MavenPaths
  import opened Ordered
  import opened Greedy
  import opened Analyser

  type Observation = (string, string)

  /** The untracked classes of the output with their hashes. */
  ghost function Observed(outputs: seq<OutputFile>): set<Observation> {
    set f, o | f in outputs && o in f.classes :: o
  }

  /** The jars an observed class may come from: those with the same hash if several jars provide it and some agree. */
  ghost function Candidates(index: Index, o: Observation): set<Path> {
    if o.0 !in index then {}
    else
      var jars := index[o.0];
      var same := set p | p in jars && jars[p] == o.1;
      if |jars| > 1 && same != {} then same else jars.Keys
  }

  ghost function Definite(index: Index, seen: set<Observation>): set<Path> {
    set o, p | o in seen && |Candidates(index, o)| == 1 && p in Candidates(index, o) :: p
  }

  /** The sets of jars that several candidates leave open. */
  ghost function Ambiguous(index: Index, seen: set<Observation>): set<set<Path>> {
    set o | o in seen && |Candidates(index, o)| > 1 :: Candidates(index, o)
  }

  /** A set of jars with how it prints: a hash set lists its elements in an order that depends on how it was filled. */
  datatype Ambiguity = Ambiguity(jars: set<Path>, text: string)

  /** What matching adds to the sorted set; `show` tells how the set made for an observed class prints. */
  ghost function Ambiguities(index: Index, seen: set<Observation>, show: Observation -> string): set<Ambiguity> {
    set o | o in seen && |Candidates(index, o)| > 1 :: Ambiguity(Candidates(index, o), show(o))
  }

  /** The comparator of the sorted set: by size, then by how the sets print. */
  function BySize(a: Ambiguity, b: Ambiguity): int {
    if |a.jars| != |b.jars| then |a.jars| - |b.jars| else Compare(a.text, b.text)
  }

  lemma BySizeCompares()
    ensures Comparator(BySize)
  {
    forall a, b ensures BySize(a, b) < 0 <==> BySize(b, a) > 0 {
      CompareSigns(a.text, b.text);
    }
    forall a, b, c | BySize(a, b) < 0 && BySize(b, c) < 0 ensures BySize(a, c) < 0 {
      if |a.jars| == |b.jars| == |c.jars| { CompareTransitive(a.text, b.text, c.text); }
    }
  }

  function JarSets(sets: seq<Ambiguity>): seq<set<Path>> {
    seq(|sets|, i requires 0 <= i < |sets| => sets[i].jars)
  }

  /** The sorted set holds one ambiguous set for each way of printing one of that size. */
  ghost predicate Keeps(sets: seq<Ambiguity>, ambiguities: set<Ambiguity>) {
    && Ascending(BySize, sets)
    && (forall m | m in sets :: m in ambiguities)
    && (forall a {:trigger Present(BySize, sets, a)} | a in ambiguities :: Present(BySize, sets, a))
  }

  /** No other ambiguous set of that size prints like this one. */
  ghost predicate Apart(ambiguities: set<Ambiguity>, a: Ambiguity) {
    forall b | b in ambiguities && |b.jars| == |a.jars| && b.text == a.text :: b == a
  }

  ghost predicate PrintApart(ambiguities: set<Ambiguity>) {
    forall a | a in ambiguities :: Apart(ambiguities, a)
  }

  /** A set that prints like no other is kept. */
  lemma ApartKept(sets: seq<Ambiguity>, ambiguities: set<Ambiguity>, a: Ambiguity)
    requires Keeps(sets, ambiguities) && a in ambiguities && Apart(ambiguities, a)
    ensures a in sets
  {
    assert Present(BySize, sets, a);
    var m :| m in sets && BySize(a, m) == 0;
    CompareSigns(a.text, m.text);
  }

  /** No ambiguous set is lost exactly when no two of one size print alike. */
  lemma KeepsAllIff(sets: seq<Ambiguity>, ambiguities: set<Ambiguity>)
    requires Keeps(sets, ambiguities)
    ensures (forall a | a in ambiguities :: a in sets) <==> PrintApart(ambiguities)
  {
    if PrintApart(ambiguities) {
      forall a | a in ambiguities ensures a in sets {
        ApartKept(sets, ambiguities, a);
      }
    } else {
      var a :| a in ambiguities && !Apart(ambiguities, a);
      var b :| b in ambiguities && |b.jars| == |a.jars| && b.text == a.text && b != a;
      NotBothKept(sets, a, b);
    }
  }

  lemma NotBothKept(sets: seq<Ambiguity>, a: Ambiguity, b: Ambiguity)
    requires Ascending(BySize, sets) && a != b && |a.jars| == |b.jars| && a.text == b.text
    ensures a !in sets || b !in sets
  {
    CompareSigns(a.text, b.text);
    BySizeCompares();
    assert forall i, j | 0 <= i < |sets| && 0 <= j < |sets| && sets[i] == a && sets[j] == b :: i == j;
  }

  method SameHash(jars: map<Path, string>, hash: string) returns (same: set<Path>)
    ensures same == set p | p in jars && jars[p] == hash
  {
    same := {};
    var rest := jars.Keys;
    while rest != {}
      invariant rest <= jars.Keys
      invariant same == set p | p in jars && p !in rest && jars[p] == hash
      decreases |rest|
    {
      var p :| p in rest;
      if jars[p] == hash {
        same := same + {p};
      }
      rest := rest - {p};
    }
  }

  /** Handles one observed class: one candidate is definite, several are recorded as a set to resolve. */
  method MatchClass(index: Index, o: Observation, text: string, additional: set<Path>, sets: seq<Ambiguity>)
    returns (additional': set<Path>, sets': seq<Ambiguity>)
    ensures var c := Candidates(index, o);
            && additional' == additional + (if |c| == 1 then c else {})
            && sets' == if |c| > 1 then Add(BySize, sets, Ambiguity(c, text)) else sets
  {
    additional', sets' := additional, sets;
    if o.0 in index {
      var jars := index[o.0];
      if |jars| > 1 {
        var filtered := SameHash(jars, o.1);
        if |filtered| == 1 {
          additional' := additional + filtered;
        } else if |filtered| > 1 {
          sets' := Add(BySize, sets, Ambiguity(filtered, text));
        } else {
          sets' := Add(BySize, sets, Ambiguity(jars.Keys, text));
        }
      } else {
        additional' := additional + jars.Keys;
        if |jars.Keys| == 0 { assert jars.Keys == {}; }
      }
    }
  }

  ghost predicate MatchedSoFar(index: Index, show: Observation -> string, seen: set<Observation>,
                               additional: set<Path>, sets: seq<Ambiguity>) {
    additional == Definite(index, seen) && Keeps(sets, Ambiguities(index, seen, show))
  }

  lemma MatchStep(index: Index, show: Observation -> string, seen: set<Observation>, o: Observation,
                  additional: set<Path>, sets: seq<Ambiguity>)
    requires MatchedSoFar(index, show, seen, additional, sets)
    ensures var c := Candidates(index, o);
            MatchedSoFar(index, show, seen + {o}, additional + (if |c| == 1 then c else {}),
                         if |c| > 1 then Add(BySize, sets, Ambiguity(c, show(o))) else sets)
  {
    var c := Candidates(index, o);
    DefiniteStep(index, seen, o);
    AmbiguitiesStep(index, seen, show, o);
    if |c| > 1 {
      KeepsAdd(sets, Ambiguities(index, seen, show), Ambiguity(c, show(o)));
    }
  }

  lemma DefiniteStep(index: Index, seen: set<Observation>, o: Observation)
    ensures Definite(index, seen + {o}) == Definite(index, seen) +
              if |Candidates(index, o)| == 1 then Candidates(index, o) else {}
  {
  }

  lemma AmbiguitiesStep(index: Index, seen: set<Observation>, show: Observation -> string, o: Observation)
    ensures Ambiguities(index, seen + {o}, show) == Ambiguities(index, seen, show) +
              if |Candidates(index, o)| > 1 then {Ambiguity(Candidates(index, o), show(o))} else {}
  {
  }

  lemma KeepsAdd(sets: seq<Ambiguity>, ambiguities: set<Ambiguity>, c: Ambiguity)
    requires Keeps(sets, ambiguities)
    ensures Keeps(Add(BySize, sets, c), ambiguities + {c})
  {
    SortedAfterAdd(sets, c);
    forall a | a in ambiguities + {c} ensures Present(BySize, Add(BySize, sets, c), a) {
      PresentAfterAdd(sets, c, a);
    }
  }

  lemma SortedAfterAdd(sets: seq<Ambiguity>, c: Ambiguity)
    requires Ascending(BySize, sets)
    ensures Ascending(BySize, Add(BySize, sets, c))
    ensures forall m | m in Add(BySize, sets, c) :: m in sets || m == c
  {
    BySizeCompares();
    AddElements(BySize, sets, c);
  }

  lemma PresentAfterAdd(sets: seq<Ambiguity>, c: Ambiguity, a: Ambiguity)
    requires Ascending(BySize, sets) && (Present(BySize, sets, a) || a == c)
    ensures Present(BySize, Add(BySize, sets, c), a)
  {
    BySizeCompares();
    CompareSigns(c.text, c.text);
    AddPresent(BySize, sets, c, a);
  }

  method MatchNext(index: Index, o: Observation, show: Observation -> string, additional: set<Path>, sets: seq<Ambiguity>,
                   ghost seen: set<Observation>)
    returns (additional': set<Path>, sets': seq<Ambiguity>)
    requires MatchedSoFar(index, show, seen, additional, sets)
    ensures MatchedSoFar(index, show, seen + {o}, additional', sets')
  {
    MatchStep(index, show, seen, o, additional, sets);
    additional', sets' := MatchClass(index, o, show(o), additional, sets);
  }

  method MatchFile(index: Index, f: OutputFile, show: Observation -> string, additional: set<Path>, sets: seq<Ambiguity>,
                   ghost seen: set<Observation>)
    returns (additional': set<Path>, sets': seq<Ambiguity>)
    requires MatchedSoFar(index, show, seen, additional, sets)
    ensures MatchedSoFar(index, show, seen + Elements(f.classes), additional', sets')
  {
    additional', sets' := additional, sets;
    ghost var now := seen;
    for k := 0 to |f.classes|
      invariant now == seen + Elements(f.classes[..k])
      invariant MatchedSoFar(index, show, now, additional', sets')
    {
      ElementsStep(f.classes, k);
      additional', sets' := MatchNext(index, f.classes[k], show, additional', sets', now);
      now := now + {f.classes[k]};
    }
    assert f.classes[..|f.classes|] == f.classes;
  }

  // ---- Tracked classes ----

  /** Everything the tracker reports about the output. */
  ghost function Reported(outputs: seq<OutputFile>): set<Option<Tracking>> {
    set f, r | f in outputs && r in f.records :: r
  }

  /** GAVs of tracked classes whose source is not allowed. */
  ghost function CommunityGavs(records: set<Option<Tracking>>, allowedSources: set<string>): set<string> {
    set r | r in records && r.Some? && r.value.source !in allowedSources :: r.value.gav
  }

  method CollectRecords(f: OutputFile, allowedSources: set<string>, tracking: set<Option<Tracking>>, gavs: set<string>)
    returns (tracking': set<Option<Tracking>>, gavs': set<string>)
    ensures tracking' == tracking + Elements(f.records)
    ensures gavs' == gavs + CommunityGavs(Elements(f.records), allowedSources)
  {
    tracking' := tracking + Elements(f.records);
    gavs' := gavs;
    for k := 0 to |f.records|
      invariant gavs' == gavs + CommunityGavs(Elements(f.records[..k]), allowedSources)
    {
      var r := f.records[k];
      if r.Some? && r.value.source !in allowedSources {
        gavs' := gavs' + {r.value.gav};
      }
      RecordsStep(Elements(f.records[..k]), r, allowedSources);
      ElementsStep(f.records, k);
    }
    assert f.records[..|f.records|] == f.records;
  }

  lemma RecordsStep(records: set<Option<Tracking>>, r: Option<Tracking>, allowedSources: set<string>)
    ensures CommunityGavs(records + {r}, allowedSources)
         == CommunityGavs(records, allowedSources) + if r.Some? && r.value.source !in allowedSources then {r.value.gav} else {}
  {
  }

  lemma RecordsUnion(a: set<Option<Tracking>>, b: set<Option<Tracking>>, allowedSources: set<string>)
    ensures CommunityGavs(a + b, allowedSources) == CommunityGavs(a, allowedSources) + CommunityGavs(b, allowedSources)
  {
  }

  /** Scans the output; what it gathers depends on what was seen, not on the order. */
  method MatchOutputs(index: Index, outputs: seq<OutputFile>, allowedSources: set<string>, show: Observation -> string)
    returns (additional: set<Path>, sets: seq<Ambiguity>, tracking: set<Option<Tracking>>, gavs: set<string>)
    ensures MatchedSoFar(index, show, Observed(outputs), additional, sets)
    ensures tracking == Reported(outputs) && gavs == CommunityGavs(Reported(outputs), allowedSources)
  {
    additional, sets, tracking, gavs := {}, [], {}, {};
    for i := 0 to |outputs|
      invariant MatchedSoFar(index, show, Observed(outputs[..i]), additional, sets)
      invariant tracking == Reported(outputs[..i]) && gavs == CommunityGavs(Reported(outputs[..i]), allowedSources)
    {
      var f := outputs[i];
      assert outputs[..i + 1] == outputs[..i] + [f];
      assert Observed(outputs[..i + 1]) == Observed(outputs[..i]) + Elements(f.classes);
      assert Reported(outputs[..i + 1]) == Reported(outputs[..i]) + Elements(f.records);
      RecordsUnion(Reported(outputs[..i]), Elements(f.records), allowedSources);
      additional, sets := MatchFile(index, f, show, additional, sets, Observed(outputs[..i]));
      tracking, gavs := CollectRecords(f, allowedSources, tracking, gavs);
    }
    assert outputs[..|outputs|] == outputs;
  }

  // ---- Resolution ----

  method AnyIn(jars: set<Path>, additional: set<Path>) returns (found: bool)
    ensures found <==> !(jars !! additional)
  {
    var rest := jars;
    while rest != {}
      invariant rest <= jars && jars - rest !! additional
      decreases |rest|
    {
      var p :| p in rest;
      if p in additional {
        return true;
      }
      rest := rest - {p};
    }
    return false;
  }

  method ResolveSets(sets: seq<Ambiguity>, additional: set<Path>) returns (chosen: set<Path>)
    ensures chosen == Resolve(JarSets(sets), additional)
  {
    chosen := additional;
    ghost var all := JarSets(sets);
    for i := 0 to |sets|
      invariant Resolve(all[i..], chosen) == Resolve(all, additional)
    {
      var already := AnyIn(sets[i].jars, chosen);
      assert all[i..][1..] == all[i + 1..];
      if !already {
        chosen := chosen + sets[i].jars;
      }
    }
  }

  lemma AscendingIsSmallestFirst(sets: seq<Ambiguity>)
    requires Ascending(BySize, sets)
    ensures SmallestFirst(JarSets(sets))
  {
    forall i, j | 0 <= i < j < |sets| ensures |sets[i].jars| <= |sets[j].jars| {
      assert BySize(sets[i], sets[j]) < 0;
    }
  }

  lemma JarSetsOfKept(index: Index, seen: set<Observation>, show: Observation -> string, sets: seq<Ambiguity>, m: set<Path>)
    requires Keeps(sets, Ambiguities(index, seen, show)) && m in JarSets(sets)
    ensures m in Ambiguous(index, seen) && m != {}
  {
    var i :| 0 <= i < |sets| && JarSets(sets)[i] == m;
    assert sets[i] in Ambiguities(index, seen, show);
  }
}
