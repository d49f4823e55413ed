/** `stage_outputs` and `overflow` of tools/rebuild_plan.py: the job matrices of a run. */
module StageOutputs {
  import opened Common
  import opened Reachability
  import opened RebuildPlan
  import Waves

  const CHUNK: nat := 250
  const STAGES: nat := 14
  const EARLY_PUBLICATIONS: nat := 4

  /** The solved wave, or the config stage of an entry the graph does not know. */
  function WaveOf(e: Entry, waves: Option<map<Name, int>>): int {
    if waves.Some? && e.name in waves.value then waves.value[e.name] else e.stage
  }

  /** Names of the entries whose wave lies in `lo..hi`, in build order. */
  function Between(build: seq<Entry>, waves: Option<map<Name, int>>, lo: int, hi: int): seq<Name> {
    if build == [] then []
    else
      var k := |build| - 1;
      Between(build[..k], waves, lo, hi) +
      if lo <= WaveOf(build[k], waves) < hi then [build[k].name] else []
  }

  function AllNames(build: seq<Entry>): seq<Name> {
    seq(|build|, i requires 0 <= i < |build| => build[i].name)
  }

  datatype Outputs = Outputs(
    buildList: seq<Name>,
    stages: seq<seq<Name>>,
    chunks: seq<seq<seq<Name>>>,
    through: seq<seq<Name>>,
    earlyWaves: seq<nat>)

  /** `[names[i:i + CHUNK] for i in range(0, len(names), CHUNK)]` */
  function Chunks(names: seq<Name>): seq<seq<Name>> {
    if names == [] then []
    else if |names| <= CHUNK then [names]
    else [names[..CHUNK]] + Chunks(names[CHUNK..])
  }

  function Concat(parts: seq<seq<Name>>): seq<Name> {
    if parts == [] then [] else parts[0] + Concat(parts[1..])
  }

  /** No chunk exceeds what GitHub expands, none is empty, and together they are the stage list. */
  lemma {:induction false} ChunksCover(names: seq<Name>)
    ensures Concat(Chunks(names)) == names
    ensures forall c | c in Chunks(names) :: 1 <= |c| <= CHUNK
    decreases |names|
  {
    if |names| > CHUNK {
      ChunksCover(names[CHUNK..]);
      assert Chunks(names)[1..] == Chunks(names[CHUNK..]);
    } else if names != [] {
      assert Chunks(names)[1..] == [];
    }
  }

  /** Every chunk but the last is full, so there are no more than need be. */
  lemma {:induction false} ChunksFull(names: seq<Name>, i: nat)
    requires i < |Chunks(names)|
    ensures i < |Chunks(names)| - 1 ==> |Chunks(names)[i]| == 250
    ensures i == |Chunks(names)| - 1 ==> |Chunks(names)[i]| == if |names| % 250 == 0 then 250 else |names| % 250
    decreases |names|
  {
    if |names| > CHUNK {
      if i > 0 { ChunksFull(names[CHUNK..], i - 1); }
      var rest := Chunks(names[CHUNK..]);
      assert rest != [];
    }
  }

  /** `sorted(entry["name"] for entry in build if wave(entry) >= STAGES)`, as a set. */
  function Overflow(build: seq<Entry>, waves: Option<map<Name, int>>): set<Name> {
    set e | e in build && WaveOf(e, waves) >= STAGES :: e.name
  }

  /** The names of one comprehension over the build list. */
  method NamesBetween(build: seq<Entry>, waves: Option<map<Name, int>>, lo: int, hi: int) returns (names: seq<Name>)
    ensures names == Between(build, waves, lo, hi)
  {
    names := [];
    for i := 0 to |build|
      invariant names == Between(build[..i], waves, lo, hi)
    {
      assert build[..i + 1][..i] == build[..i];
      if lo <= WaveOf(build[i], waves) < hi {
        names := names + [build[i].name];
      }
    }
    assert build[..|build|] == build;
  }

  /** Below every wave of the build list. */
  ghost predicate Floor(build: seq<Entry>, waves: Option<map<Name, int>>, lo: int) {
    forall e | e in build :: lo <= WaveOf(e, waves)
  }

  function Lowest(build: seq<Entry>, waves: Option<map<Name, int>>): (lo: int)
    ensures lo <= 0 && Floor(build, waves, lo)
  {
    if build == [] then 0
    else
      var rest, w := Lowest(build[1..], waves), WaveOf(build[0], waves);
      assert forall e | e in build :: e == build[0] || e in build[1..];
      if w < rest then w else rest
  }

  /** The lists `stage_outputs` emits, each tied to its range of waves. */
  ghost predicate IsComputed(build: seq<Entry>, waves: Option<map<Name, int>>, out: Outputs) {
    && out.buildList == AllNames(build)
    && |out.stages| == |out.chunks| == STAGES && |out.through| == EARLY_PUBLICATIONS
    && (forall s | 0 <= s < STAGES :: out.stages[s] == Between(build, waves, s, s + 1))
    && (forall s | 0 <= s < STAGES :: out.chunks[s] == Chunks(out.stages[s]))
    && (forall k | 0 <= k < EARLY_PUBLICATIONS :: out.through[k] == Between(build, waves, Lowest(build, waves), k + 1))
    && (forall k :: k in out.earlyWaves <==>
          && 0 <= k < EARLY_PUBLICATIONS && out.stages[k] != []
          && exists later :: k < later < STAGES && out.stages[later] != [])
    && (forall i, j | 0 <= i < j < |out.earlyWaves| :: out.earlyWaves[i] < out.earlyWaves[j])
  }

  /** `stage_outputs` */
  method Compute(build: seq<Entry>, waves: Option<map<Name, int>>) returns (out: Outputs)
    ensures IsComputed(build, waves, out)
  {
    var stages: seq<seq<Name>>, chunks: seq<seq<seq<Name>>> := [], [];
    for s := 0 to STAGES
      invariant |stages| == |chunks| == s
      invariant forall j | 0 <= j < s :: stages[j] == Between(build, waves, j, j + 1) && chunks[j] == Chunks(stages[j])
    {
      var names := NamesBetween(build, waves, s, s + 1);
      stages := stages + [names];
      chunks := chunks + [Chunks(names)];
    }
    var through: seq<seq<Name>> := [];
    for k := 0 to EARLY_PUBLICATIONS
      invariant |through| == k
      invariant forall j | 0 <= j < k :: through[j] == Between(build, waves, Lowest(build, waves), j + 1)
    {
      var names := NamesBetween(build, waves, Lowest(build, waves), k + 1);
      through := through + [names];
    }
    var early := EarlyWaves(stages);
    out := Outputs(AllNames(build), stages, chunks, through, early);
  }

  /** `[stage for stage in occupied[:-1] if stage < EARLY_PUBLICATIONS]` */
  method EarlyWaves(stages: seq<seq<Name>>) returns (early: seq<nat>)
    requires |stages| == STAGES
    ensures forall k :: k in early <==>
              && 0 <= k < EARLY_PUBLICATIONS && stages[k] != []
              && exists later :: k < later < STAGES && stages[later] != []
    ensures forall i, j | 0 <= i < j < |early| :: early[i] < early[j]
  {
    var occupied: seq<nat> := [];
    for s := 0 to STAGES
      invariant forall k :: k in occupied <==> 0 <= k < s && stages[k] != []
      invariant forall i | 0 <= i < |occupied| :: occupied[i] < s
      invariant forall i, j | 0 <= i < j < |occupied| :: occupied[i] < occupied[j]
    {
      if stages[s] != [] {
        occupied := occupied + [s];
      }
    }
    early := [];
    for i := 0 to |occupied| - (if occupied == [] then 0 else 1)
      invariant forall k :: k in early <==> k in occupied[..i] && k < EARLY_PUBLICATIONS
      invariant forall a, b | 0 <= a < b < |early| :: early[a] < early[b]
    {
      if occupied[i] < EARLY_PUBLICATIONS {
        forall a | 0 <= a < |early| ensures early[a] < occupied[i] {
          assert early[a] in early && early[a] in occupied[..i];
        }
        early := early + [occupied[i]];
      }
    }
    assert occupied[..|occupied|] == occupied;
    EarlyMeaning(stages, occupied, early);
  }

  /** The occupied stages but for the last are the non-empty ones with a later one. */
  lemma EarlyMeaning(stages: seq<seq<Name>>, occupied: seq<nat>, early: seq<nat>)
    requires |stages| == STAGES && forall k :: k in occupied <==> 0 <= k < STAGES && stages[k] != []
    requires forall i, j | 0 <= i < j < |occupied| :: occupied[i] < occupied[j]
    requires forall k :: k in early <==>
      occupied != [] && k in occupied[..|occupied| - 1] && k < EARLY_PUBLICATIONS
    ensures forall k :: k in early <==>
              && 0 <= k < EARLY_PUBLICATIONS && stages[k] != []
              && exists later :: k < later < STAGES && stages[later] != []
  {
    var last := |occupied| - 1;
    forall k
      ensures k in early <==>
                && 0 <= k < EARLY_PUBLICATIONS && stages[k] != []
                && exists later :: k < later < STAGES && stages[later] != []
    {
      if k in early {
        var i :| 0 <= i < last && occupied[..last][i] == k;
        assert occupied[i] == k && k in occupied && occupied[i] < occupied[last];
        assert occupied[last] in occupied && stages[occupied[last]] != [];
      }
      if 0 <= k < EARLY_PUBLICATIONS && stages[k] != [] {
        if later :| k < later < STAGES && stages[later] != [] {
          assert k in occupied && later in occupied;
          var i :| 0 <= i < |occupied| && occupied[i] == k;
          var j :| 0 <= j < |occupied| && occupied[j] == later;
          assert i < j;
          assert occupied[..last][i] == k;
        }
      }
    }
  }

  // ------------------------------------------------------------ nothing is lost

  /** Splitting a range of waves splits its names, with none lost or doubled. */
  lemma {:induction false} BetweenSplits(build: seq<Entry>, waves: Option<map<Name, int>>, lo: int, mid: int, hi: int)
    requires lo <= mid <= hi
    ensures multiset(Between(build, waves, lo, hi)) ==
        multiset(Between(build, waves, lo, mid)) + multiset(Between(build, waves, mid, hi))
    decreases |build|
  {
    if build != [] { BetweenSplits(build[..|build| - 1], waves, lo, mid, hi); }
  }

  /** All stage lists from `0` to `hi`, as one bag of names. */
  function Bag(build: seq<Entry>, waves: Option<map<Name, int>>, hi: nat): multiset<Name> {
    if hi == 0 then multiset{} else Bag(build, waves, hi - 1) + multiset(Between(build, waves, hi - 1, hi))
  }

  lemma {:induction false} BetweenNothing(build: seq<Entry>, waves: Option<map<Name, int>>, at: int)
    ensures Between(build, waves, at, at) == []
    decreases |build|
  {
    if build != [] { BetweenNothing(build[..|build| - 1], waves, at); }
  }

  lemma {:induction false} BagIsBetween(build: seq<Entry>, waves: Option<map<Name, int>>, hi: nat)
    ensures Bag(build, waves, hi) == multiset(Between(build, waves, 0, hi))
  {
    hide Between;
    if hi == 0 {
      BetweenNothing(build, waves, 0);
    } else {
      BagIsBetween(build, waves, hi - 1);
      BetweenSplits(build, waves, 0, hi - 1, hi);
    }
  }

  lemma {:induction false} BetweenAll(build: seq<Entry>, waves: Option<map<Name, int>>, lo: int, hi: int)
    ensures |Between(build, waves, lo, hi)| <= |build|
    ensures |Between(build, waves, lo, hi)| == |build| <==> forall e | e in build :: lo <= WaveOf(e, waves) < hi
    ensures (forall e | e in build :: lo <= WaveOf(e, waves) < hi) ==> Between(build, waves, lo, hi) == AllNames(build)
    decreases |build|
  {
    if build != [] {
      var k := |build| - 1;
      BetweenAll(build[..k], waves, lo, hi);
      assert build == build[..k] + [build[k]];
      assert AllNames(build) == AllNames(build[..k]) + [build[k].name];
    }
  }

  /**
   The fourteen stage lists hold exactly the build list, each entry once:
   exactly when no entry overflows and no entry has a negative wave, which
   `overflow` does not look for.
   */
  lemma StagesPartition(build: seq<Entry>, waves: Option<map<Name, int>>)
    ensures Bag(build, waves, STAGES) == multiset(AllNames(build))
            <==> Overflow(build, waves) == {} && forall e | e in build :: WaveOf(e, waves) >= 0
  {
    BagIsBetween(build, waves, STAGES);
    BetweenAll(build, waves, 0, STAGES);
    assert |multiset(AllNames(build))| == |build|;
    assert |multiset(Between(build, waves, 0, STAGES))| == |Between(build, waves, 0, STAGES)|;
    forall e | e in build && WaveOf(e, waves) >= STAGES ensures Overflow(build, waves) != {} {
      assert e.name in Overflow(build, waves);
    }
  }

  /** A negative stage slips past `overflow` and out of every stage list. */
  lemma NegativeStageIsLost(name: Name)
    ensures var build := [Entry(name, -1)];
            Overflow(build, None) == {} && Bag(build, None, STAGES) != multiset(AllNames(build))
  {
    var build := [Entry(name, -1)];
    assert Overflow(build, None) == {};
    assert build[0] in build && WaveOf(build[0], None) == -1;
    StagesPartition(build, None);
  }

  /** `through k` is what stages 0 to k hold, when no wave is negative. */
  lemma ThroughIsPrefix(build: seq<Entry>, waves: Option<map<Name, int>>, k: nat)
    requires forall e | e in build :: WaveOf(e, waves) >= 0
    ensures multiset(Between(build, waves, Lowest(build, waves), k + 1)) == Bag(build, waves, k + 1)
  {
    BagIsBetween(build, waves, k + 1);
    BetweenSplits(build, waves, Lowest(build, waves), 0, k + 1);
    BetweenBelow(build, waves, Lowest(build, waves), 0);
  }

  lemma {:induction false} BetweenBelow(build: seq<Entry>, waves: Option<map<Name, int>>, lo: int, hi: int)
    requires forall e | e in build :: WaveOf(e, waves) >= hi
    ensures Between(build, waves, lo, hi) == []
    decreases |build|
  {
    if build != [] { BetweenBelow(build[..|build| - 1], waves, lo, hi); }
  }

  lemma {:induction false} BetweenMember(build: seq<Entry>, waves: Option<map<Name, int>>, lo: int, hi: int, n: Name)
    ensures n in Between(build, waves, lo, hi) <==> exists e :: e in build && e.name == n && lo <= WaveOf(e, waves) < hi
    decreases |build|
  {
    if build != [] {
      var k := |build| - 1;
      BetweenMember(build[..k], waves, lo, hi, n);
      assert build == build[..k] + [build[k]];
    }
  }

  /**
   With solved waves and nothing overflowing, every surviving BuildRequires
   edge leads from its consumer's stage list to a strictly earlier one.
   */
  lemma ProvidersBuildEarlier(build: seq<Entry>, r: Graph, wave: map<Name, nat>, consumer: Entry, provider: Entry)
    requires Waves.Solved(r, wave) && wave.Keys == NamesOf(build)
    requires Overflow(build, Some(wave)) == {}
    requires consumer in build && provider in build && provider.name in Succ(r, consumer.name)
    ensures var s, t := WaveOf(consumer, Some(wave)), WaveOf(provider, Some(wave));
            && 0 <= t < s < STAGES
            && consumer.name in Between(build, Some(wave), s, s + 1)
            && provider.name in Between(build, Some(wave), t, t + 1)
  {
    assert consumer.name in wave && provider.name in wave;
    var s, t := WaveOf(consumer, Some(wave)), WaveOf(provider, Some(wave));
    assert s >= STAGES ==> consumer.name in Overflow(build, Some(wave));
    BetweenMember(build, Some(wave), s, s + 1, consumer.name);
    BetweenMember(build, Some(wave), t, t + 1, provider.name);
  }

  /** `e` is built at wave `s`: its solved wave, or its config stage where none was solved. */
  ghost predicate BuiltAt(e: Entry, waves: Option<map<Name, int>>, s: int) {
    match waves
    case None => e.stage == s
    case Some(m) => if e.name in m then m[e.name] == s else e.stage == s
  }

  /** On the entries: fourteen stage lists, each of what is built at its wave, and four that hold all up to theirs. */
  lemma ListsOnEntries(build: seq<Entry>, waves: Option<map<Name, int>>, out: Outputs, s: nat, n: Name)
    requires IsComputed(build, waves, out)
    ensures |out.stages| == 14 && |out.through| == 4
    ensures s < 14 ==> (n in out.stages[s] <==> exists e :: e in build && e.name == n && BuiltAt(e, waves, s))
    ensures s < 4 ==>
              (n in out.through[s] <==> exists e, t :: e in build && e.name == n && t <= s && BuiltAt(e, waves, t))
    ensures n in Overflow(build, waves) <==> exists e, t :: e in build && e.name == n && t >= 14 && BuiltAt(e, waves, t)
    ensures out.buildList == AllNames(build) && forall i | 0 <= i < |build| :: out.buildList[i] == build[i].name
  {
    BetweenMember(build, waves, s, s + 1, n);
    BetweenMember(build, waves, Lowest(build, waves), s + 1, n);
    forall e, t ensures BuiltAt(e, waves, t) <==> WaveOf(e, waves) == t {}
    hide WaveOf, BuiltAt;
    forall e | e in build && e.name == n ensures BuiltAt(e, waves, WaveOf(e, waves)) {}
  }

  /** Within a list the names keep the order of the build list. */
  lemma {:induction false} BetweenInOrder(build: seq<Entry>, waves: Option<map<Name, int>>, lo: int, hi: int, i: nat,
                                          j: nat)
    requires i < j < |Between(build, waves, lo, hi)|
    ensures exists a, b :: && 0 <= a < b < |build| && build[a].name == Between(build, waves, lo, hi)[i]
                           && build[b].name == Between(build, waves, lo, hi)[j]
    decreases |build|
  {
    var k := |build| - 1;
    var front := Between(build[..k], waves, lo, hi);
    if j < |front| {
      BetweenInOrder(build[..k], waves, lo, hi, i, j);
      var a, b :| && 0 <= a < b < k && build[..k][a].name == front[i] && build[..k][b].name == front[j];
      assert build[a].name == front[i] && build[b].name == front[j];
    } else {
      BetweenMember(build[..k], waves, lo, hi, front[i]);
      assert front[i] in front;
      var e :| e in build[..k] && e.name == front[i];
      var a :| 0 <= a < k && build[..k][a] == e;
      assert build[a].name == front[i];
    }
  }
}
