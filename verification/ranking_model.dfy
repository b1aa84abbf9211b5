/** The LambdaRank ranking model: Fallback (no booster, a fixed weighted sum
    per row) or Loaded (a trained booster). The booster, its training and its
    file format are foreign; they appear as uninterpreted functions. */
module RankingModel {

  import opened Common
  import opened Sorting

  /** A trained booster: one score per feature row. */
  datatype Booster = Booster(predict: seq<real> -> real)

  /** What sits at the model path: nothing, a file the booster loader rejects,
      or a file it loads. */
  datatype StoredModel = NoFile | Unloadable | Loadable(booster: Booster)

  /** `lgb.train(params, Dataset(X, label=y, group=group_sizes), epochs)`. */
  type Trainer = (seq<seq<real>>, seq<real>, seq<int>, int) -> Booster

  /** `metadata()`. */
  datatype Metadata = Metadata(version: string, createdAt: string, path: string, available: bool)

  const Version: string := "v1"

  /** The fallback weights for dense, sparse, length, overlap, recency and
      feedback. */
  const Weights: seq<real> := [0.45, 0.35, 0.01, 0.1, 0.05, 0.04]

  /** `features @ weights` for one row. */
  function FallbackScore(row: seq<real>): (r: real)
    requires |row| == 6
    ensures (forall k :: 0 <= k < 6 ==> 0.0 <= row[k] <= 1.0) ==> 0.0 <= r <= 1.0
    ensures (forall k :: 0 <= k < 6 ==> row[k] == row[0]) ==> r == row[0]
  {
    row[0] * Weights[0] + row[1] * Weights[1] + row[2] * Weights[2]
      + row[3] * Weights[3] + row[4] * Weights[4] + row[5] * Weights[5]
  }

  /** The fallback weights are non-negative and sum to one. */
  lemma WeightsAreConvex()
    ensures forall k :: 0 <= k < |Weights| ==> Weights[k] >= 0.0
    ensures Sum(Weights) == 1.0
  {
    var w1, w2, w3, w4, w5 := [0.45], [0.45, 0.35], [0.45, 0.35, 0.01],
      [0.45, 0.35, 0.01, 0.1], [0.45, 0.35, 0.01, 0.1, 0.05];
    assert w1[..0] == [];
    assert w2[..1] == w1;
    assert w3[..2] == w2;
    assert w4[..3] == w3;
    assert w5[..4] == w4;
    assert Weights[..5] == w5;
    assert Sum(w1) == 0.45;
    assert Sum(w2) == 0.8;
    assert Sum(w3) == 0.81;
    assert Sum(w4) == 0.91;
    assert Sum(w5) == 0.96;
  }

  /** Raising any feature never lowers the fallback score. */
  lemma FallbackScoreMonotone(a: seq<real>, b: seq<real>)
    requires |a| == 6 && |b| == 6
    requires forall k :: 0 <= k < 6 ==> a[k] <= b[k]
    ensures FallbackScore(a) <= FallbackScore(b)
  {
    assert a[0] * 0.45 <= b[0] * 0.45;
    assert a[1] * 0.35 <= b[1] * 0.35;
    assert a[2] * 0.01 <= b[2] * 0.01;
    assert a[3] * 0.1 <= b[3] * 0.1;
    assert a[4] * 0.05 <= b[4] * 0.05;
    assert a[5] * 0.04 <= b[5] * 0.04;
  }

  predicate SixWide(rows: seq<seq<real>>)
  {
    forall i :: 0 <= i < |rows| ==> |rows[i]| == 6
  }

  class LambdaRankModel {
    const modelPath: string
    /** Whether `import lightgbm` succeeded. */
    const lightgbmAvailable: bool
    var model: Option<Booster>
    var version: string
    var createdAt: string
    /** What the model path holds. */
    var stored: StoredModel

    /** A booster is only ever held when LightGBM is importable, and the
        version is always "v1". */
    ghost predicate Valid()
      reads this
    {
      && version == Version
      && (model.Some? ==> lightgbmAvailable)
    }

    /** `__init__` followed by `load_or_init`: the booster is loaded only when
        the file exists, LightGBM is available and loading succeeds. `now` and
        `loadTime` are the two clock readings. */
    constructor (modelPath: string, lightgbmAvailable: bool, stored: StoredModel, now: string, loadTime: string)
      ensures Valid()
      ensures this.modelPath == modelPath && this.lightgbmAvailable == lightgbmAvailable
      ensures this.stored == stored
      ensures model == (if lightgbmAvailable && stored.Loadable? then Some(stored.booster) else None)
      ensures createdAt == (if lightgbmAvailable && stored.Loadable? then loadTime else now)
    {
      this.modelPath := modelPath;
      this.lightgbmAvailable := lightgbmAvailable;
      this.stored := stored;
      model := None;
      version := Version;
      createdAt := now;
      new;
      if stored != NoFile && lightgbmAvailable {
        match stored
        case Loadable(b) =>
          model := Some(b);
          version := Version;
          createdAt := loadTime;
        case Unloadable =>
          model := None;
      }
    }

    /** The score of every row, in row order, from the booster or the
        fallback weights. */
    function RowScores(features: seq<seq<real>>): (r: seq<real>)
      reads this
      requires SixWide(features)
      ensures |r| == |features|
      ensures model.None? ==> forall i :: 0 <= i < |r| ==> r[i] == FallbackScore(features[i])
    {
      var m := model;
      seq(|features|, i requires 0 <= i < |features| =>
        if m.Some? && lightgbmAvailable then m.value.predict(features[i])
        else FallbackScore(features[i]))
    }

    /** `rank`: the row scores sorted largest first, no longer aligned with
        the rows they came from. */
    function Rank(features: seq<seq<real>>): (r: seq<real>)
      reads this
      requires SixWide(features)
      ensures |r| == |features|
      ensures NonIncreasing(r)
      ensures multiset(r) == multiset(RowScores(features))
    {
      SortDesc(RowScores(features))
    }

    /** `train`: without LightGBM nothing changes; otherwise the trained
        booster replaces the model, the timestamp is refreshed and the model
        is saved. */
    method Train(x: seq<seq<real>>, y: seq<real>, groupSizes: seq<int>, epochs: int,
                 trainer: Trainer, now: string)
      requires Valid()
      modifies this
      ensures Valid()
      ensures !lightgbmAvailable ==>
        model == old(model) && createdAt == old(createdAt) && stored == old(stored)
      ensures lightgbmAvailable ==>
        && model == Some(trainer(x, y, groupSizes, epochs))
        && createdAt == now
        && stored == Loadable(trainer(x, y, groupSizes, epochs))
    {
      if !lightgbmAvailable {
        return;
      }
      model := Some(trainer(x, y, groupSizes, epochs));
      version := Version;
      createdAt := now;
      Save();
    }

    /** `save`: writes the booster to the model path only when one is held. */
    method Save()
      modifies this
      ensures model == old(model) && version == old(version) && createdAt == old(createdAt)
      ensures stored == (if model.Some? && lightgbmAvailable then Loadable(model.value) else old(stored))
    {
      if model.Some? && lightgbmAvailable {
        stored := Loadable(model.value);
      }
    }

    /** `metadata()`: available exactly when a booster is held. */
    function Meta(): (r: Metadata)
      reads this
      requires Valid()
      ensures r.available <==> model.Some?
      ensures r.version == Version
      ensures r.path == modelPath && r.createdAt == createdAt
    {
      Metadata(version, createdAt, modelPath, model.Some?)
    }
  }
}
