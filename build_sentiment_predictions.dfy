/** The prediction batch job: read the raw tweets back through a feature
    view (creating the view on first use), add each tweet's top sentiment
    label and score, and upsert the result into the predictions group. */
module SentimentPredictions {
  import opened Wrappers
  import opened Frames
  import opened Store
  import FeaturePipeline

  const RawView := Ident("nft_crypto_tweets_raw_view", 2)
  const PredictionsGroup := Ident("nft_crypto_tweets_sentiment_predictions", 1)
  /** The view created over the raw group on first use. */
  const RawViewDefinition := View(SelectAll(FeaturePipeline.RawGroup), ["dummy_target"])

  /** One entry of the classifier's ranked answer: a label name and its score. */
  datatype Prediction = Prediction(name: string, score: real)

  /** A deterministic text classifier: its ranked answer for one cell, best first. */
  type Classifier = Cell -> seq<Prediction>

  /** `fetch_raw_data_from_hopsworks_fs`. The `try` branch returns the batch
      data of the raw view when it exists and its group can be read; any
      failure there leads to the `except` branch, which creates the raw view
      over all of the raw group, labelled by `dummy_target`, and returns its
      batch data. None where the `except` branch raises too: the raw group is
      missing or the view already exists. */
  method FetchRawData(store: FeatureStore) returns (r: Option<Table>)
    requires store.Valid()
    modifies store
    ensures store.groups == old(store.groups)
    ensures Readable(old(store.views), store.groups, RawView) ==>
              && r.Some? && store.views == old(store.views)
              && IsBatchOf(r.value, store.groups[store.views[RawView].query.group])
    ensures !Readable(old(store.views), store.groups, RawView) ==>
              if RawView !in old(store.views) && FeaturePipeline.RawGroup in store.groups then
                && r.Some? && store.views == old(store.views)[RawView := RawViewDefinition]
                && IsBatchOf(r.value, store.groups[FeaturePipeline.RawGroup])
              else r.None? && store.views == old(store.views)
    ensures r.Some? ==> fresh(r.value) && Readable(store.views, store.groups, RawView)
  {
    var view := store.GetFeatureView(RawView);
    if view.Some? {
      var data := store.GetBatchData(view.value);
      if data.Some? {
        return data;
      }
    }
    var query := store.SelectAllOf(FeaturePipeline.RawGroup);
    if query.None? {
      return None;
    }
    var created := store.CreateFeatureView(RawView, query.value, ["dummy_target"]);
    if created.None? {
      return None;
    }
    r := store.GetBatchData(created.value);
  }

  /** `df[name]`: the cells of column `name`, one per row, in order. */
  function Column(rows: seq<Row>, name: string): (r: seq<Cell>)
    requires forall i :: 0 <= i < |rows| ==> name in rows[i]
    ensures |r| == |rows| && forall i :: 0 <= i < |rows| ==> r[i] == rows[i][name]
  {
    seq(|rows|, i requires 0 <= i < |rows| => rows[i][name])
  }

  /** `texts.apply(lambda x: classify(x)[0])`: the top entry of each text's
      answer, in order; None where some answer is empty, so `[0]` raises. */
  function TopPredictions(texts: seq<Cell>, classify: Classifier): (r: Option<seq<Prediction>>)
    ensures r.Some? <==> forall i :: 0 <= i < |texts| ==> classify(texts[i]) != []
    ensures r.Some? ==> |r.value| == |texts|
                        && forall i :: 0 <= i < |texts| ==> r.value[i] == classify(texts[i])[0]
  {
    if texts == [] then Some([])
    else
      var answer := classify(texts[0]);
      if answer == [] then None
      else
        var rest :- TopPredictions(texts[1..], classify);
        Some([answer[0]] + rest)
  }

  function Labels(predictions: seq<Prediction>): (r: seq<Cell>)
    ensures |r| == |predictions|
    ensures forall i :: 0 <= i < |r| ==> r[i] == TextCell(predictions[i].name)
  {
    seq(|predictions|, i requires 0 <= i < |predictions| => TextCell(predictions[i].name))
  }

  function Scores(predictions: seq<Prediction>): (r: seq<Cell>)
    ensures |r| == |predictions|
    ensures forall i :: 0 <= i < |r| ==> r[i] == RealCell(predictions[i].score)
  {
    seq(|predictions|, i requires 0 <= i < |predictions| => RealCell(predictions[i].score))
  }

  /** A row after scoring: its label and score columns set from `p`, every other column as before. */
  predicate IsScoredRow(scored: Row, row: Row, p: Prediction) {
    && scored.Keys == row.Keys + {"sentiment", "sentiment_score"}
    && scored["sentiment"] == TextCell(p.name)
    && scored["sentiment_score"] == RealCell(p.score)
    && forall c :: c in row && c != "sentiment" && c != "sentiment_score" ==> scored[c] == row[c]
  }

  lemma ScoredRows(rows: seq<Row>, predictions: seq<Prediction>)
    requires |predictions| == |rows|
    ensures var r := WithColumn(WithColumn(rows, "sentiment", Labels(predictions)),
                                "sentiment_score", Scores(predictions));
            forall i :: 0 <= i < |rows| ==> IsScoredRow(r[i], rows[i], predictions[i])
  {
  }

  /** `extract_sentiment`: sets the `sentiment` and `sentiment_score`
      columns of the caller's table to each tweet text's top label and
      score, and returns that same table. None where the table has no
      `tweet_text` column or some answer is empty; the table is then as it
      was, since a column is assigned only once its `apply` has finished. */
  method ExtractSentiment(df: Table, classify: Classifier) returns (r: Option<Table>)
    requires df.Valid()
    modifies df
    ensures df.Valid()
    ensures r.Some? <==> "tweet_text" in old(df.columns)
                         && TopPredictions(Column(old(df.rows), "tweet_text"), classify).Some?
    ensures r.None? ==> df.columns == old(df.columns) && df.rows == old(df.rows)
    ensures r.Some? ==>
              && r.value == df
              && df.columns == AddName(AddName(old(df.columns), "sentiment"), "sentiment_score")
              && |df.rows| == |old(df.rows)|
              && forall i :: 0 <= i < |df.rows| ==>
                   IsScoredRow(df.rows[i], old(df.rows)[i], classify(old(df.rows)[i]["tweet_text"])[0])
  {
    if "tweet_text" !in df.columns {
      return None;
    }
    var texts := Column(df.rows, "tweet_text");
    var top := TopPredictions(texts, classify);
    if top.None? {
      return None;
    }
    ScoredRows(df.rows, top.value);
    df.SetColumn("sentiment", Labels(top.value));
    df.SetColumn("sentiment_score", Scores(top.value));
    r := Some(df);
  }

  /** `push_predictions_fg`: sets `dummy_target` of every row of the
      caller's table to a fresh placeholder (replacing any earlier one), gets
      or creates the predictions group keyed by `tweet_id` and upserts the
      table into it; ok is false where the insert raises. */
  method PushPredictions(df: Table, store: FeatureStore) returns (ok: bool)
    requires df.Valid() && store.Valid()
    modifies df, store
    ensures df.Valid() && store.Valid() && store.views == old(store.views)
    ensures df.columns == AddName(old(df.columns), "dummy_target") && |df.rows| == |old(df.rows)|
    ensures forall i :: 0 <= i < |df.rows| ==>
              && "dummy_target" in df.rows[i] && IsPlaceholder(df.rows[i]["dummy_target"])
              && df.rows[i] == old(df.rows)[i]["dummy_target" := df.rows[i]["dummy_target"]]
    ensures store.groups == Pushed(old(store.groups), PredictionsGroup, FeaturePipeline.TweetKey, df.columns, df.rows)
    ensures ok <==> CanInsert(GroupOrNew(old(store.groups), PredictionsGroup, FeaturePipeline.TweetKey), df.columns)
  {
    var values := RandomPlaceholders(|df.rows|);
    df.SetColumn("dummy_target", values);
    store.GetOrCreateFeatureGroup(PredictionsGroup, FeaturePipeline.TweetKey);
    ok := store.Insert(PredictionsGroup, df);
  }

  /** Pushing predictions twice: the second call redraws `dummy_target` and
      upserts again. So re-pushing is idempotent up to that column: the
      second insert is allowed, no other group changes, the predictions group
      keeps its keys, and each stored row changes at most in `dummy_target`. */
  lemma RepushPredictions(groups: map<Ident, Group>, columns: seq<string>, rows: seq<Row>,
                          first: seq<Cell>, second: seq<Cell>)
    requires Conforms(rows, columns) && |first| == |rows| && |second| == |rows|
    requires CanInsert(GroupOrNew(groups, PredictionsGroup, FeaturePipeline.TweetKey), AddName(columns, "dummy_target"))
    requires "dummy_target" !in GroupOrNew(groups, PredictionsGroup, FeaturePipeline.TweetKey).primaryKey
    ensures var labelled := AddName(columns, "dummy_target");
            var before := WithColumn(rows, "dummy_target", first);
            var after := WithColumn(before, "dummy_target", second);
            && AddName(labelled, "dummy_target") == labelled
            && Conforms(before, labelled) && Conforms(after, labelled)
            && var once := Pushed(groups, PredictionsGroup, FeaturePipeline.TweetKey, labelled, before);
               var twice := Pushed(once, PredictionsGroup, FeaturePipeline.TweetKey, labelled, after);
               && CanInsert(GroupOrNew(once, PredictionsGroup, FeaturePipeline.TweetKey), labelled)
               && twice.Keys == once.Keys
               && (forall other :: other in once && other != PredictionsGroup ==> twice[other] == once[other])
               && twice[PredictionsGroup].rows.Keys == once[PredictionsGroup].rows.Keys
               && forall k :: k in once[PredictionsGroup].rows ==>
                    SameOffColumn(once[PredictionsGroup].rows[k], twice[PredictionsGroup].rows[k], "dummy_target")
  {
    var labelled := AddName(columns, "dummy_target");
    var before := WithColumn(rows, "dummy_target", first);
    var after := WithColumn(before, "dummy_target", second);
    WithColumnConforms(rows, columns, "dummy_target", first);
    WithColumnConforms(before, labelled, "dummy_target", second);
    assert Redrawn(before, after, "dummy_target");
    PushRedrawn(groups, PredictionsGroup, FeaturePipeline.TweetKey, labelled, before, after, "dummy_target");
  }
}
