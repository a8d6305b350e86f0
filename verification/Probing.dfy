/** Where the search of `get` stops, layer by layer. */
module Probing {
  import opened Basics
  import opened Sorting
  import opened Layers
  import opened EngineModel

  ghost predicate NotInMemory(s: State, k: Key) {
    k !in s.mem.data && forall i :: 0 <= i < |s.imm| ==> k !in s.imm[i].data
  }

  /** Neither memory nor the levels above `level` know the key. */
  ghost predicate NotAbove(cfg: Config, s: State, k: Key, level: nat) {
    && NotInMemory(s, k)
    && (level > 0 ==> forall i :: 0 <= i < |TablesAt(s.levels, 0)| ==> k !in ToMap(TablesAt(s.levels, 0)[i].entries))
    && forall l: nat :: 1 <= l < level ==> k !in LevelLayer(TablesAt(s.levels, l))
  }

  lemma {:induction false} FirstKnowing(ls: seq<Layer>, k: Key, i: nat)
    requires i <= |ls| && forall j :: 0 <= j < i ==> k !in ls[j]
    ensures i < |ls| && k in ls[i] ==> Lookup(ls, k) == Some(ls[i][k])
    ensures i == |ls| ==> Lookup(ls, k) == None
    decreases i
  {
    if i > 0 {
      assert forall j :: 0 <= j < i - 1 ==> ls[1..][j] == ls[j + 1];
      FirstKnowing(ls[1..], k, i - 1);
    }
  }

  lemma {:induction false} DeepAt(levels: Levels, from: nat, upto: nat, i: nat)
    requires from + i < upto
    ensures |DeepLayers(levels, from, upto)| == upto - from
    ensures DeepLayers(levels, from, upto)[i] == LevelLayer(TablesAt(levels, from + i))
    decreases i
  {
    hide LevelLayer;
    DeepLength(levels, from, upto);
    if i > 0 {
      DeepAt(levels, from + 1, upto, i - 1);
    }
  }

  lemma {:induction false} DeepLength(levels: Levels, from: nat, upto: nat)
    requires from <= upto
    ensures |DeepLayers(levels, from, upto)| == upto - from
    decreases upto - from
  {
    if from < upto {
      DeepLength(levels, from + 1, upto);
    }
  }

  lemma FoundInMem(cfg: Config, s: State, k: Key)
    requires k in s.mem.data
    ensures Get(cfg, s, k) == s.mem.data[k].value
  {
  }

  lemma FoundInImmutable(cfg: Config, s: State, k: Key, i: nat)
    requires k !in s.mem.data && i < |s.imm| && k in s.imm[i].data
    requires forall j :: i < j < |s.imm| ==> k !in s.imm[j].data
    ensures Get(cfg, s, k) == s.imm[i].data[k].value
  {
    var ls, n := Probe(cfg, s), |s.imm|;
    assert forall x :: 1 <= x <= n ==> ls[x] == s.imm[n - x].data;
    FirstKnowing(ls, k, n - i);
  }

  lemma FoundInL0(cfg: Config, s: State, k: Key, i: nat)
    requires NotInMemory(s, k) && i < |TablesAt(s.levels, 0)| && k in ToMap(TablesAt(s.levels, 0)[i].entries)
    requires forall j :: i < j < |TablesAt(s.levels, 0)| ==> k !in ToMap(TablesAt(s.levels, 0)[j].entries)
    ensures Get(cfg, s, k) == ToMap(TablesAt(s.levels, 0)[i].entries)[k].value
  {
    hide ToMap;
    var mems := [s.mem.data] + NewestMems(s.imm);
    var l0, ts := NewestTables(TablesAt(s.levels, 0)), TablesAt(s.levels, 0);
    FirstKnowing(mems, k, |mems|);
    FirstKnowing(l0, k, |ts| - 1 - i);
    assert Probe(cfg, s) == mems + (l0 + DeepLayers(s.levels, 1, cfg.maxLevels));
    LookupAppend(mems, l0 + DeepLayers(s.levels, 1, cfg.maxLevels), k);
    LookupAppend(l0, DeepLayers(s.levels, 1, cfg.maxLevels), k);
  }

  /** Once neither memory nor level 0 knows the key, the deeper levels decide. */
  lemma OnlyDeep(cfg: Config, s: State, k: Key)
    requires NotAbove(cfg, s, k, 1)
    ensures Get(cfg, s, k) == Visible(DeepLayers(s.levels, 1, cfg.maxLevels), k)
  {
    hide ToMap;
    var mems := [s.mem.data] + NewestMems(s.imm);
    var l0 := NewestTables(TablesAt(s.levels, 0));
    FirstKnowing(mems, k, |mems|);
    FirstKnowing(l0, k, |l0|);
    assert Probe(cfg, s) == mems + (l0 + DeepLayers(s.levels, 1, cfg.maxLevels));
    LookupAppend(mems, l0 + DeepLayers(s.levels, 1, cfg.maxLevels), k);
    LookupAppend(l0, DeepLayers(s.levels, 1, cfg.maxLevels), k);
  }

  lemma NotAboveMore(cfg: Config, s: State, k: Key, level: nat)
    requires NotAbove(cfg, s, k, level) && level >= 1
    ensures NotAbove(cfg, s, k, 1)
  {
  }

  lemma FoundDeep(cfg: Config, s: State, k: Key, level: nat)
    requires 1 <= level < cfg.maxLevels && NotAbove(cfg, s, k, level) && k in LevelLayer(TablesAt(s.levels, level))
    ensures Get(cfg, s, k) == LevelLayer(TablesAt(s.levels, level))[k].value
  {
    hide LevelLayer, Get;
    var deep := DeepLayers(s.levels, 1, cfg.maxLevels);
    NotAboveMore(cfg, s, k, level);
    OnlyDeep(cfg, s, k);
    DeepLength(s.levels, 1, cfg.maxLevels);
    forall i: nat | i < level ensures deep[i] == LevelLayer(TablesAt(s.levels, i + 1)) {
      DeepAt(s.levels, 1, cfg.maxLevels, i);
    }
    FirstKnowing(deep, k, level - 1);
  }

  lemma FoundNowhere(cfg: Config, s: State, k: Key)
    requires 1 <= cfg.maxLevels && NotAbove(cfg, s, k, cfg.maxLevels)
    ensures Get(cfg, s, k) == None
  {
    hide LevelLayer;
    var deep := DeepLayers(s.levels, 1, cfg.maxLevels);
    OnlyDeep(cfg, s, k);
    DeepLength(s.levels, 1, cfg.maxLevels);
    forall i: nat | i < |deep| ensures deep[i] == LevelLayer(TablesAt(s.levels, i + 1)) {
      DeepAt(s.levels, 1, cfg.maxLevels, i);
    }
    FirstKnowing(deep, k, |deep|);
  }

  lemma MissedTable(cfg: Config, t: Table, k: Key)
    requires cfg.Valid() && (cfg.mightContain(t.entries, k) ==> Find(t.entries, k) == None)
    ensures k !in ToMap(t.entries) && Find(t.entries, k) == None
  {
  }

  lemma HitEntries(es: seq<Entry>, k: Key)
    requires Find(es, k).Some?
    ensures k in ToMap(es) && ToMap(es)[k] == Find(es, k).value
  {
  }

  lemma DeepTables(cfg: Config, s: State, l: nat)
    requires Inv(cfg, s) && 1 <= l < cfg.maxLevels
    ensures DeepLevelOk(TablesAt(s.levels, l))
  {
  }

  lemma NextLevel(cfg: Config, s: State, k: Key, level: nat)
    requires NotAbove(cfg, s, k, level)
    requires level == 0 ==> forall i :: 0 <= i < |TablesAt(s.levels, 0)| ==> k !in ToMap(TablesAt(s.levels, 0)[i].entries)
    requires level > 0 ==> Find(LevelEntries(TablesAt(s.levels, level)), k) == None
    ensures NotAbove(cfg, s, k, level + 1)
  {
  }
}
